/** String helpers in the ASCII subset: `toLowerCase`, `trim`, `startsWith`,
    `includes` and the e-mail normalisation `email.trim().toLowerCase()` the
    client applies before every request. */
module Text {

  /** `toLowerCase` on one character; only A-Z change. */
  function LowerChar(c: char): char {
    if 'A' <= c <= 'Z' then (c as int + 32) as char else c
  }

  /** `s.toLowerCase()` in the ASCII subset. */
  function Lower(s: string): (r: string)
    ensures |r| == |s|
    ensures forall i :: 0 <= i < |s| ==> r[i] == LowerChar(s[i])
  {
    seq(|s|, i requires 0 <= i < |s| => LowerChar(s[i]))
  }

  /** The ASCII characters JavaScript's `trim` removes. */
  predicate IsSpace(c: char) {
    c == ' ' || c == '\t' || c == '\n' || c == '\r' || c == '\U{B}' || c == '\U{C}'
  }

  function TrimStart(s: string): (r: string)
    ensures |r| <= |s| && r == s[|s| - |r|..]
    ensures r == [] || !IsSpace(r[0])
    ensures forall i :: 0 <= i < |s| - |r| ==> IsSpace(s[i])
  {
    if |s| > 0 && IsSpace(s[0]) then
      var r := TrimStart(s[1..]);
      assert s[1..][|s| - 1 - |r|..] == s[|s| - |r|..];
      assert forall i :: 1 <= i < |s| - |r| ==> s[i] == s[1..][i - 1];
      r
    else s
  }

  function TrimEnd(s: string): (r: string)
    ensures |r| <= |s| && r == s[..|r|]
    ensures r == [] || !IsSpace(r[|r| - 1])
    ensures forall i :: |r| <= i < |s| ==> IsSpace(s[i])
  {
    if |s| > 0 && IsSpace(s[|s| - 1]) then
      var r := TrimEnd(s[..|s| - 1]);
      assert s[..|s| - 1][..|r|] == s[..|r|];
      assert forall i :: |r| <= i < |s| - 1 ==> s[i] == s[..|s| - 1][i];
      r
    else s
  }

  /** Neither end is a space. */
  predicate Trimmed(s: string) {
    s == [] || (!IsSpace(s[0]) && !IsSpace(s[|s| - 1]))
  }

  /** `s.trim()`: the longest infix that starts and ends with a non-space. */
  function Trim(s: string): (r: string)
    ensures Trimmed(r)
    ensures |r| <= |s|
    ensures exists k :: InfixAt(s, r, k) && SpacesOutside(s, k, k + |r|)
  {
    var a := TrimStart(s);
    var r := TrimEnd(a);
    TrimEndKeepsStart(a);
    TrimLocated(s, a, r);
    r
  }

  /** Cutting spaces off the end of a string that starts with a non-space keeps that start. */
  lemma TrimEndKeepsStart(a: string)
    requires a == [] || !IsSpace(a[0])
    ensures Trimmed(TrimEnd(a))
  {
    var r := TrimEnd(a);
    if r != [] {
      assert r[0] == a[0];
    }
  }

  lemma TrimLocated(s: string, a: string, r: string)
    requires |a| <= |s| && a == s[|s| - |a|..] && forall i :: 0 <= i < |s| - |a| ==> IsSpace(s[i])
    requires |r| <= |a| && r == a[..|r|] && forall i :: |r| <= i < |a| ==> IsSpace(a[i])
    ensures InfixAt(s, r, |s| - |a|) && SpacesOutside(s, |s| - |a|, |s| - |a| + |r|)
  {
    var k := |s| - |a|;
    assert a == s[k..];
    assert r == a[..|r|];
    assert r == s[k..k + |r|] by {
      forall i | 0 <= i < |r| ensures r[i] == s[k + i] {
        assert r[i] == a[i];
      }
    }
    assert forall i :: 0 <= i < k ==> IsSpace(s[i]);
    forall i | k + |r| <= i < |s| ensures IsSpace(s[i]) {
      assert s[i] == a[i - k];
    }
  }

  /** Every character of `s` before `lo` and from `hi` on is a space. */
  predicate SpacesOutside(s: string, lo: int, hi: int) {
    (forall i :: 0 <= i < lo && i < |s| ==> IsSpace(s[i]))
    && (forall i :: hi <= i < |s| && 0 <= i ==> IsSpace(s[i]))
  }

  lemma TrimOfTrimmed(s: string)
    requires Trimmed(s)
    ensures Trim(s) == s
  {
  }

  /** The normalised form of an e-mail address: `email.trim().toLowerCase()`. */
  function Normalize(email: string): string {
    Lower(Trim(email))
  }

  /** Lower-casing keeps spaces and non-spaces apart, so it keeps a string trimmed. */
  lemma LowerKeepsTrimmed(s: string)
    requires Trimmed(s)
    ensures Trimmed(Lower(s))
  {
  }

  lemma LowerIdempotent(s: string)
    ensures Lower(Lower(s)) == Lower(s)
  {
  }

  /** Normalising twice is normalising once. */
  lemma NormalizeIdempotent(email: string)
    ensures Normalize(Normalize(email)) == Normalize(email)
  {
    var n := Normalize(email);
    LowerKeepsTrimmed(Trim(email));
    TrimOfTrimmed(n);
    LowerIdempotent(Trim(email));
  }

  /** The result of normalising has no upper-case letter and no surrounding space. */
  lemma NormalizeShape(email: string)
    ensures Trimmed(Normalize(email))
    ensures forall i :: 0 <= i < |Normalize(email)| ==> !('A' <= Normalize(email)[i] <= 'Z')
  {
    var t := Trim(email);
    LowerKeepsTrimmed(t);
    forall i | 0 <= i < |Normalize(email)| ensures !('A' <= Normalize(email)[i] <= 'Z') {
      assert Normalize(email)[i] == LowerChar(t[i]);
      LowerCharNotUpper(t[i]);
    }
  }

  lemma LowerCharNotUpper(c: char)
    ensures !('A' <= LowerChar(c) <= 'Z')
  {
  }

  /** `s.startsWith(p)`. */
  predicate StartsWith(s: string, p: string) {
    |p| <= |s| && s[..|p|] == p
  }

  /** `s.includes(sub)`: `sub` occurs as a contiguous infix of `s`. */
  predicate Includes(s: string, sub: string) {
    exists k :: 0 <= k <= |s| && InfixAt(s, sub, k)
  }

  /** `sub` occurs in `s` starting at index `k`. */
  predicate InfixAt(s: string, sub: string, k: int) {
    0 <= k <= |s| - |sub| && s[k..k + |sub|] == sub
  }

  /** Every string includes the empty string. */
  lemma IncludesEmpty(s: string)
    ensures Includes(s, "")
  {
    assert InfixAt(s, "", 0);
  }
}
