/**
 * The string primitives the page's handlers rely on: `String.prototype.trim`
 * and the regular-expression class `\s`, which both treat the same set of
 * code points as white space (the ECMAScript WhiteSpace and LineTerminator
 * productions).
 */
module JsText {

  /**
   * The code points `trim` removes and `\s` matches. All of them lie in the
   * Basic Multilingual Plane, so each is a single UTF-16 code unit and
   * trimming code points removes exactly the code units JavaScript removes.
   */
  predicate IsWhitespace(c: char)
    ensures IsWhitespace(c) ==> c < '\U{10000}'
  {
    c in SingleWhitespace || '\U{2000}' <= c <= '\U{200A}'
  }

  /** The white-space code points outside the range U+2000..U+200A. */
  const SingleWhitespace: set<char> :=
    { '\t', '\n', '\U{000B}', '\U{000C}', '\r', ' ', '\U{00A0}', '\U{1680}',
      '\U{2028}', '\U{2029}', '\U{202F}', '\U{205F}', '\U{3000}', '\U{FEFF}' }

  /** Every character of `s` is white space (vacuously so for the empty string). */
  predicate AllWhitespace(s: string) {
    forall k :: 0 <= k < |s| ==> IsWhitespace(s[k])
  }

  /** How many white-space characters `s` starts with. */
  function LeadingWhitespace(s: string): (n: nat)
    ensures n <= |s|
    ensures AllWhitespace(s[..n])
    ensures n < |s| ==> !IsWhitespace(s[n])
  {
    if s != [] && IsWhitespace(s[0]) then
      var m := LeadingWhitespace(s[1..]);
      var head := s[..m + 1];
      assert AllWhitespace(head) by {
        forall k | 1 <= k < |head|
          ensures IsWhitespace(head[k])
        {
          assert head[k] == s[1..][..m][k - 1];
        }
      }
      m + 1
    else 0
  }

  /** Two all-white-space strings concatenate to one. */
  lemma AllWhitespaceConcat(a: string, b: string)
    requires AllWhitespace(a) && AllWhitespace(b)
    ensures AllWhitespace(a + b)
  {
    forall k | |a| <= k < |a + b|
      ensures IsWhitespace((a + b)[k])
    {
      assert (a + b)[k] == b[k - |a|];
    }
  }

  /** How many white-space characters `s` ends with. */
  function TrailingWhitespace(s: string): (n: nat)
    ensures n <= |s|
    ensures AllWhitespace(s[|s| - n..])
    ensures n < |s| ==> !IsWhitespace(s[|s| - n - 1])
  {
    if s != [] && IsWhitespace(s[|s| - 1]) then
      var init := s[..|s| - 1];
      var m := TrailingWhitespace(init);
      assert s[|s| - m - 1..] == init[|init| - m..] + [s[|s| - 1]];
      AllWhitespaceConcat(init[|init| - m..], [s[|s| - 1]]);
      assert m + 1 < |s| ==> s[|s| - m - 2] == init[|init| - m - 1];
      m + 1
    else 0
  }

  /**
   * `String.prototype.trim`: the infix of `s` that remains once every
   * leading and every trailing white-space character is removed. It neither
   * starts nor ends with white space and is empty exactly when `s` is all
   * white space.
   */
  function Trim(s: string): (r: string)
    ensures |r| <= |s|
    ensures r != [] ==> !IsWhitespace(r[0]) && !IsWhitespace(r[|r| - 1])
    ensures r == [] <==> AllWhitespace(s)
    ensures var k := LeadingWhitespace(s);
            && k + |r| <= |s| && r == s[k..k + |r|]
            && AllWhitespace(s[..k]) && AllWhitespace(s[k + |r|..])
  {
    var k := LeadingWhitespace(s);
    if k == |s| then
      assert s[..k] == s;
      []
    else
      var m := TrailingWhitespace(s);
      assert !IsWhitespace(s[k]);
      s[k..|s| - m]
  }

  /** A string that neither starts nor ends with white space trims to itself. */
  lemma TrimKeepsText(s: string)
    requires s != [] && !IsWhitespace(s[0]) && !IsWhitespace(s[|s| - 1])
    ensures Trim(s) == s
  {
    assert LeadingWhitespace(s) == 0;
    assert TrailingWhitespace(s) == 0;
    assert s[0..|s|] == s;
  }

  /**
   * `String(b)` for a boolean: the text an attribute such as `aria-expanded`
   * or `aria-invalid` receives.
   */
  function BooleanString(b: bool): (text: string)
    ensures text == "true" <==> b
    ensures text == "true" || text == "false"
  {
    if b then "true" else "false"
  }

  /**
   * `String.prototype.length`: the number of UTF-16 code units, which is two
   * for a code point outside the Basic Multilingual Plane and one otherwise.
   */
  function Utf16Length(s: string): (n: nat)
    ensures |s| <= n <= 2 * |s|
    ensures (forall k :: 0 <= k < |s| ==> s[k] < '\U{10000}') ==> n == |s|
  {
    if s == [] then 0
    else (if s[0] < '\U{10000}' then 1 else 2) + Utf16Length(s[1..])
  }

  /** Code-unit lengths add up over concatenation. */
  lemma {:induction false} Utf16LengthOfConcat(a: string, b: string)
    ensures Utf16Length(a + b) == Utf16Length(a) + Utf16Length(b)
    decreases |a|
  {
    if a != [] {
      assert (a + b)[1..] == a[1..] + b;
      Utf16LengthOfConcat(a[1..], b);
    } else {
      assert a + b == b;
    }
  }
}
