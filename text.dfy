/**
 * The few string primitives of ECMAScript the core relies on, over `seq<char>`:
 * `toLowerCase` restricted to ASCII, the white-space class `\s` (which is also
 * what `trim` strips), ASCII case-insensitive comparison (a regular expression's
 * `i` flag without `u`), and the decimal rendering of a count in a template string.
 */
module Text {

  /** `\s`: ECMAScript WhiteSpace and LineTerminator code points. */
  predicate IsSpace(c: char)
  {
    || c == '\t' || c == '\n' || c == '\U{000B}' || c == '\U{000C}' || c == '\r' || c == ' '
    || c == '\U{00A0}' || c == '\U{1680}' || ('\U{2000}' <= c <= '\U{200A}')
    || c == '\U{2028}' || c == '\U{2029}' || c == '\U{202F}' || c == '\U{205F}'
    || c == '\U{3000}' || c == '\U{FEFF}'
  }

  predicate AllSpace(s: string)
  {
    forall i :: 0 <= i < |s| ==> IsSpace(s[i])
  }

  predicate IsUpper(c: char)
  {
    'A' <= c <= 'Z'
  }

  /** Lower-cases an ASCII capital; every other character is kept. */
  function LowerChar(c: char): (r: char)
    ensures !IsUpper(r)
    ensures IsUpper(c) ==> r != c && r as int - 'a' as int == c as int - 'A' as int
    ensures !IsUpper(c) ==> r == c
  {
    if IsUpper(c) then (c as int - 'A' as int + 'a' as int) as char else c
  }

  /** `toLowerCase`, restricted to ASCII capitals. */
  function Lower(s: string): (r: string)
    ensures |r| == |s|
    ensures forall i :: 0 <= i < |s| ==> r[i] == LowerChar(s[i])
  {
    seq(|s|, i requires 0 <= i < |s| => LowerChar(s[i]))
  }

  lemma LowerIdempotent(s: string)
    ensures Lower(Lower(s)) == Lower(s)
  {
  }

  lemma LowerAppend(a: string, b: string)
    ensures Lower(a + b) == Lower(a) + Lower(b)
  {
  }

  /** `w`, which is written in lower case, occurs at `i` of `s` ignoring ASCII case. */
  predicate CiAt(s: string, i: nat, w: string)
  {
    i + |w| <= |s| && forall k :: 0 <= k < |w| ==> LowerChar(s[i + k]) == w[k]
  }

  /** The end of the run of white space that starts at `i`. */
  function SpaceRun(s: string, i: nat): (r: nat)
    requires i <= |s|
    ensures i <= r <= |s| && AllSpace(s[i..r])
    ensures r < |s| ==> !IsSpace(s[r])
    decreases |s| - i
  {
    if i < |s| && IsSpace(s[i]) then
      var r := SpaceRun(s, i + 1);
      AllSpaceCons(s[i], s[i + 1..r]);
      assert s[i..r] == [s[i]] + s[i + 1..r];
      r
    else i
  }

  /** The start of the run of white space that ends at `j`, going back no further than `lo`. */
  function SpaceRunBack(s: string, lo: nat, j: nat): (r: nat)
    requires lo <= j <= |s|
    ensures lo <= r <= j && AllSpace(s[r..j])
    ensures r > lo ==> !IsSpace(s[r - 1])
    decreases j
  {
    if j > lo && IsSpace(s[j - 1]) then
      var r := SpaceRunBack(s, lo, j - 1);
      AllSpaceSnoc(s[r..j - 1], s[j - 1]);
      assert s[r..j] == s[r..j - 1] + [s[j - 1]];
      r
    else j
  }

  lemma AllSpaceCons(c: char, t: string)
    requires IsSpace(c) && AllSpace(t)
    ensures AllSpace([c] + t)
  {
    var u := [c] + t;
    forall i | 0 <= i < |u| ensures IsSpace(u[i]) {
      if i > 0 {
        assert u[i] == t[i - 1];
      }
    }
  }

  lemma AllSpaceSnoc(t: string, c: char)
    requires AllSpace(t) && IsSpace(c)
    ensures AllSpace(t + [c])
  {
    var u := t + [c];
    forall i | 0 <= i < |u| ensures IsSpace(u[i]) {
      if i < |t| {
        assert u[i] == t[i];
      }
    }
  }

  /**
   * `trim`: the part of `s` left between its leading and trailing white space;
   * it neither starts nor ends with white space.
   */
  function Trim(s: string): (r: string)
    ensures var lo := SpaceRun(s, 0);
      && lo + |r| <= |s| && r == s[lo..lo + |r|]
      && AllSpace(s[..lo]) && AllSpace(s[lo + |r|..])
    ensures r == [] || (!IsSpace(r[0]) && !IsSpace(r[|r| - 1]))
  {
    var lo := SpaceRun(s, 0);
    var hi := SpaceRunBack(s, lo, |s|);
    assert s[0..lo] == s[..lo] && s[hi..|s|] == s[hi..];
    s[lo..hi]
  }

  /** A string is blank after `trim` exactly when it is white space only. */
  lemma TrimEmptyIff(s: string)
    ensures Trim(s) == [] <==> AllSpace(s)
  {
    var lo := SpaceRun(s, 0);
    if Trim(s) == [] {
      assert lo == |s|;
      assert s[..lo] == s;
    }
  }

  /** Text that neither starts nor ends with white space is its own `trim`. */
  lemma TrimUnchanged(s: string)
    requires s == [] || (!IsSpace(s[0]) && !IsSpace(s[|s| - 1]))
    ensures Trim(s) == s
  {
    if s != [] {
      assert !AllSpace(s[..1]);
      assert SpaceRun(s, 0) == 0;
      assert !AllSpace(s[|s| - 1..]);
    }
  }

  /** Decimal digits of `n`, as a template string renders a non-negative integer. */
  function NatToString(n: nat): (r: string)
    ensures |r| >= 1
    ensures forall i :: 0 <= i < |r| ==> '0' <= r[i] <= '9'
    ensures |r| > 1 ==> r[0] != '0'
  {
    if n < 10 then [Digit(n)] else NatToString(n / 10) + [Digit(n % 10)]
  }

  function Digit(d: nat): (c: char)
    requires d < 10
    ensures '0' <= c <= '9' && c as int - '0' as int == d
  {
    ('0' as int + d) as char
  }

  /** The value of a string of decimal digits. */
  function DecimalValue(s: string): nat
    requires forall i :: 0 <= i < |s| ==> '0' <= s[i] <= '9'
  {
    if s == [] then 0 else 10 * DecimalValue(s[..|s| - 1]) + (s[|s| - 1] as int - '0' as int)
  }

  /** The rendering of a count reads back as that count. */
  lemma {:induction false} NatToStringRoundTrip(n: nat)
    ensures DecimalValue(NatToString(n)) == n
  {
    if n >= 10 {
      NatToStringRoundTrip(n / 10);
      var r := NatToString(n);
      assert r[..|r| - 1] == NatToString(n / 10);
    }
  }
}
