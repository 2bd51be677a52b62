/** The few java.lang.String operations the order service applies to request text:
    trim(), isBlank(), toUpperCase() and equalsIgnoreCase(). Case mapping covers
    the ASCII letters only. */
module JavaText {

  import opened Wrappers

  /** Character.isWhitespace: the space separators other than the no-break spaces,
      the line and paragraph separators, and the control characters 9-13 and 28-31. */
  predicate IsWhitespace(c: char) {
    || c == ' '
    || '\t' <= c <= '\r'
    || '\U{1C}' <= c <= '\U{1F}'
    || c == '\U{1680}'
    || '\U{2000}' <= c <= '\U{2006}'
    || '\U{2008}' <= c <= '\U{200A}'
    || c == '\U{2028}' || c == '\U{2029}'
    || c == '\U{205F}' || c == '\U{3000}'
  }

  /** String.isBlank: empty or whitespace only. */
  predicate IsBlank(s: string) {
    forall i :: 0 <= i < |s| ==> IsWhitespace(s[i])
  }

  /** String.trim strips every leading character at or below U+0020. */
  function TrimStart(s: string): (r: string)
    ensures |r| <= |s| && r == s[|s| - |r|..]
    ensures forall i :: 0 <= i < |s| - |r| ==> s[i] <= ' '
    ensures r == [] || r[0] > ' '
  {
    if |s| > 0 && s[0] <= ' ' then TrimStart(s[1..]) else s
  }

  /** ... and every trailing character at or below U+0020. */
  function TrimEnd(s: string): (r: string)
    ensures |r| <= |s| && r == s[..|r|]
    ensures forall i :: |r| <= i < |s| ==> s[i] <= ' '
    ensures r == [] || r[|r| - 1] > ' '
  {
    if |s| > 0 && s[|s| - 1] <= ' ' then TrimEnd(s[..|s| - 1]) else s
  }

  function Trim(s: string): string {
    TrimEnd(TrimStart(s))
  }

  /** A string with no character at or below U+0020 at either end is its own trim. */
  lemma TrimKeepsTrimmed(s: string)
    requires s == [] || (s[0] > ' ' && s[|s| - 1] > ' ')
    ensures Trim(s) == s
  {
  }

  /** Trimming a blank string leaves a blank string. */
  lemma TrimOfBlankIsBlank(s: string)
    requires IsBlank(s)
    ensures IsBlank(Trim(s))
  {
    var u := TrimStart(s);
    BlankSlice(s, |s| - |u|, |s|);
    assert IsBlank(u);
    BlankSlice(u, 0, |TrimEnd(u)|);
  }

  /** Every slice of a blank string is blank. */
  lemma BlankSlice(s: string, lo: nat, hi: nat)
    requires IsBlank(s) && lo <= hi <= |s|
    ensures IsBlank(s[lo..hi])
  {
    forall i | 0 <= i < hi - lo
      ensures IsWhitespace(s[lo..hi][i])
    {
      assert s[lo..hi][i] == s[lo + i];
    }
  }

  function UpperChar(c: char): char {
    if 'a' <= c <= 'z' then (c as int - 32) as char else c
  }

  /** String.toUpperCase restricted to the ASCII letters: no lower-case letter is left,
      each one becomes its capital, and every other character is kept in place. */
  function ToUpper(s: string): (r: string)
    ensures |r| == |s|
    ensures forall i :: 0 <= i < |r| ==> !('a' <= r[i] <= 'z')
    ensures forall i :: 0 <= i < |s| && 'a' <= s[i] <= 'z' ==> r[i] as int - 'A' as int == s[i] as int - 'a' as int
    ensures forall i :: 0 <= i < |s| && !('a' <= s[i] <= 'z') ==> r[i] == s[i]
  {
    seq(|s|, i requires 0 <= i < |s| => UpperChar(s[i]))
  }

  /** A string without lower-case letters is its own upper case. */
  lemma ToUpperKeepsUpper(s: string)
    requires forall i :: 0 <= i < |s| ==> !('a' <= s[i] <= 'z')
    ensures ToUpper(s) == s
  {
  }

  /** Text of upper-case ASCII letters only is unchanged by trimming and upper-casing. */
  lemma UpperWordIsCanonical(s: string)
    requires |s| > 0
    requires forall i :: 0 <= i < |s| ==> 'A' <= s[i] <= 'Z'
    ensures ToUpper(Trim(s)) == s
  {
    assert s[0] > ' ' && s[|s| - 1] > ' ';
    TrimKeepsTrimmed(s);
    assert forall i :: 0 <= i < |s| ==> !('a' <= s[i] <= 'z');
    ToUpperKeepsUpper(s);
  }

  /** String.equalsIgnoreCase: same length, and equal character by character once
      both sides are upper-cased. A null argument is never equal. */
  predicate EqualsIgnoreCase(a: string, b: Option<string>) {
    b.Some? && |a| == |b.value| && ToUpper(a) == ToUpper(b.value)
  }

}
