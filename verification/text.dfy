/** The few java.lang.String operations the domain layer relies on:
    `trim()`, `trim().isEmpty()` and case-insensitive comparison. */
module Text {
  import opened Wrappers

  /** A nullable Java string. */
  type JString = Option<string>

  /** `String.trim()` strips every leading and trailing char whose code is at most U+0020. */
  predicate IsSpace(c: char) {
    c <= ' '
  }

  /** `s.trim().isEmpty()`: every char of `s` is one that `trim()` strips. */
  predicate IsBlank(s: string) {
    forall i :: 0 <= i < |s| ==> IsSpace(s[i])
  }

  /** The recurring Java guard `s == null || s.trim().isEmpty()`. */
  predicate IsNullOrBlank(s: JString) {
    s.None? || IsBlank(s.value)
  }

  /** Neither end of `s` is a char that `trim()` would strip. */
  predicate IsTrimmed(s: string) {
    |s| == 0 || (!IsSpace(s[0]) && !IsSpace(s[|s| - 1]))
  }

  /** Drops the leading run of space chars: the result is a suffix of `s`. */
  function TrimStart(s: string): (r: string)
    ensures |r| <= |s| && r == s[|s| - |r|..]
    ensures IsBlank(s[..|s| - |r|])
    ensures |r| > 0 ==> !IsSpace(r[0])
  {
    if |s| > 0 && IsSpace(s[0]) then
      TrimStart(s[1..])
    else
      s
  }

  /** Drops the trailing run of space chars: the result is a prefix of `s`. */
  function TrimEnd(s: string): (r: string)
    ensures |r| <= |s| && r == s[..|r|]
    ensures IsBlank(s[|r|..])
    ensures |r| > 0 ==> !IsSpace(r[|r| - 1])
  {
    if |s| > 0 && IsSpace(s[|s| - 1]) then
      var r := TrimEnd(s[..|s| - 1]);
      assert forall i :: 0 <= i < |s| - 1 - |r| ==> s[|r|..][i] == s[..|s| - 1][|r|..][i];
      r
    else
      s
  }

  /** `String.trim()`: neither end of the result is a space char. */
  function Trim(s: string): (r: string)
    ensures IsTrimmed(r)
    ensures |r| <= |s|
  {
    TrimEnd(TrimStart(s))
  }

  /** What `trim()` removes is a blank prefix and a blank suffix: the result is
      the slice of `s` between them. */
  lemma TrimIsSlice(s: string)
    ensures exists i :: 0 <= i && i + |Trim(s)| <= |s| && Trim(s) == s[i..i + |Trim(s)|]
                        && IsBlank(s[..i]) && IsBlank(s[i + |Trim(s)|..])
  {
    var t := TrimStart(s);
    var r := TrimEnd(t);
    var i := |s| - |t|;
    SliceOfSuffix(s, i, |r|);
    assert IsBlank(s[..i]);
    assert r == s[i..i + |r|];
    assert IsBlank(s[i + |r|..]);
  }

  /** Cutting a suffix of `s` at `n` cuts `s` itself at `i + n`. */
  lemma SliceOfSuffix(s: string, i: nat, n: nat)
    requires i + n <= |s|
    ensures s[i..][..n] == s[i..i + n]
    ensures s[i..][n..] == s[i + n..]
  {
  }

  /** `s.trim().isEmpty()` holds exactly when `s` is blank. */
  lemma BlankIffTrimsToEmpty(s: string)
    ensures IsBlank(s) <==> Trim(s) == []
  {
    var t := TrimStart(s);
    if IsBlank(s) {
      assert |t| == 0;
    }
    if Trim(s) == [] {
      TrimIsSlice(s);
      var i :| 0 <= i && i <= |s| && IsBlank(s[..i]) && IsBlank(s[i..]);
      forall j | 0 <= j < |s|
        ensures IsSpace(s[j])
      {
        if j < i {
          assert s[j] == s[..i][j];
        } else {
          assert s[j] == s[i..][j - i];
        }
      }
    }
  }

  /** A string with no space char at either end is left as it is by `trim()`. */
  lemma {:induction false} TrimmedIsFixedPoint(s: string)
    requires IsTrimmed(s)
    ensures Trim(s) == s
  {
    if |s| > 0 {
      assert TrimStart(s) == s;
      assert TrimEnd(s) == s;
    }
  }

  /** Trimming twice is trimming once. */
  lemma TrimIdempotent(s: string)
    ensures Trim(Trim(s)) == Trim(s)
  {
    TrimmedIsFixedPoint(Trim(s));
  }

  /** A string that is not blank keeps at least one char after `trim()`. */
  lemma TrimOfNonBlankIsNonEmpty(s: string)
    requires !IsBlank(s)
    ensures |Trim(s)| > 0
  {
    BlankIffTrimsToEmpty(s);
  }

  /** ASCII upper-casing of one char. */
  function UpperAscii(c: char): char {
    if 'a' <= c <= 'z' then (c as int - 32) as char else c
  }

  /** ASCII upper-casing of a string, char by char. */
  function Upper(s: string): (r: string)
    ensures |r| == |s|
    ensures forall i :: 0 <= i < |s| ==> r[i] == UpperAscii(s[i])
  {
    seq(|s|, i requires 0 <= i < |s| => UpperAscii(s[i]))
  }

  /** The `upper(a) = upper(b)` test behind a case-insensitive lookup. */
  predicate EqualsIgnoreCase(a: string, b: string) {
    Upper(a) == Upper(b)
  }

  /** Two strings are equal ignoring case exactly when they have the same length
      and agree char by char after upper-casing. */
  lemma EqualsIgnoreCaseCharwise(a: string, b: string)
    ensures EqualsIgnoreCase(a, b) <==>
            |a| == |b| && forall i :: 0 <= i < |a| ==> UpperAscii(a[i]) == UpperAscii(b[i])
  {
    if |a| == |b| && forall i :: 0 <= i < |a| ==> UpperAscii(a[i]) == UpperAscii(b[i]) {
      assert forall i :: 0 <= i < |a| ==> Upper(a)[i] == Upper(b)[i];
    }
    if EqualsIgnoreCase(a, b) {
      assert forall i :: 0 <= i < |a| ==> Upper(a)[i] == Upper(b)[i];
    }
  }
}
