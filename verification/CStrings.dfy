/** Strings that end at their first NUL. */
module CStrings {
  const NUL := '\0'

  /** The length of a string that ends at its first NUL. */
  function Length(s: string): (n: nat)
    ensures n <= |s| && NUL !in s[..n]
    ensures n < |s| ==> s[n] == NUL
  {
    if s == [] || s[0] == NUL then 0
    else
      var n := Length(s[1..]);
      assert s[..1 + n] == [s[0]] + s[1..][..n];
      1 + n
  }

  function CString(s: string): string {
    s[..Length(s)]
  }

  lemma {:induction false} LengthAt(s: string, n: nat)
    requires n <= |s| && NUL !in s[..n] && (n < |s| ==> s[n] == NUL)
    ensures Length(s) == n && CString(s) == s[..n]
  {
    if n > 0 {
      assert s[0] == s[..n][0];
      assert s[1..][..n - 1] == s[..n][1..];
      LengthAt(s[1..], n - 1);
    }
  }

  lemma LengthWithout(s: string)
    requires NUL !in s
    ensures Length(s) == |s| && CString(s) == s
  {
    assert s[..|s|] == s;
    LengthAt(s, |s|);
  }

  /** What follows a terminating NUL does not matter. */
  lemma CStringOf(s: string, t: string)
    requires |t| < |s| && s[..|t|] == t && s[|t|] == NUL
    ensures CString(s) == CString(t)
    ensures Length(s) == Length(t)
  {
    var n := Length(t);
    assert s[..n] == t[..n];
    assert n < |t| ==> s[n] == s[..|t|][n];
    LengthAt(s, n);
  }
}
