/** Result types shared by the models of the release tooling. */
module Basics {

  datatype Option<+T> = None | Some(value: T)

  /** A call that returns a value or raises the script's own error. */
  datatype Result<+T> = Ok(value: T) | Err(message: string)

  /** White space, over ASCII: the space, tabs and line ends, and the four separators. */
  predicate Blank(c: char) {
    c == ' ' || ('\t' <= c <= '\r') || ('\U{1c}' <= c <= '\U{1f}')
  }

  predicate AllBlank(s: string) {
    forall k | 0 <= k < |s| :: Blank(s[k])
  }

  function StripFront(s: string): string {
    if s != [] && Blank(s[0]) then StripFront(s[1..]) else s
  }

  predicate HasText(s: string) {
    exists c | c in s :: !Blank(c)
  }

  lemma HasTextIff(s: string)
    ensures HasText(s) <==> !AllBlank(s)
  {
  }

  /** The lower-case form of a text, over ASCII. */
  function Lower(s: string): string {
    seq(|s|, i requires 0 <= i < |s| => if 'A' <= s[i] <= 'Z' then (s[i] as int + 32) as char else s[i])
  }

  /** The stripped text is what follows the leading white space. */
  lemma {:induction false} StripFrontIs(s: string)
    ensures var t := StripFront(s);
            && |t| <= |s| && t == s[|s| - |t|..] && AllBlank(s[..|s| - |t|]) && (t != [] ==> !Blank(t[0]))
  {
    if s != [] && Blank(s[0]) {
      StripFrontIs(s[1..]);
    }
  }

  /** The same letter in both cases. */
  predicate OtherCase(a: char, b: char) {
    ('A' <= a <= 'Z' && b as int == a as int + 32) || ('A' <= b <= 'Z' && a as int == b as int + 32)
  }

  predicate SameButCase(a: string, b: string) {
    |a| == |b| && forall k | 0 <= k < |a| :: a[k] == b[k] || OtherCase(a[k], b[k])
  }

  /** Lower-casing identifies the texts that differ in case only, and leaves no capital. */
  lemma LowerIs(a: string, b: string)
    ensures Lower(a) == Lower(b) <==> SameButCase(a, b)
    ensures SameButCase(a, Lower(a)) && forall c | c in Lower(a) :: !('A' <= c <= 'Z')
  {
    if Lower(a) == Lower(b) {
      assert |a| == |Lower(a)| == |Lower(b)| == |b|;
      forall k | 0 <= k < |a|
        ensures a[k] == b[k] || OtherCase(a[k], b[k])
      {
        assert Lower(a)[k] == Lower(b)[k];
      }
    }
    if SameButCase(a, b) {
      assert forall k | 0 <= k < |a| :: Lower(a)[k] == Lower(b)[k];
    }
  }

  lemma SubsetSize<T>(a: set<T>, b: set<T>)
    requires a <= b
    ensures |a| <= |b|
  {
    assert b == a + (b - a);
  }
}
