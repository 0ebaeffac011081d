/**
 * The few pieces of the Java platform the search helpers lean on:
 * `String.trim()`, Commons Lang's `StringUtils.isBlank` and the way
 * `StringBuilder.append(String)` renders a null reference.
 *
 * `trim` and `isBlank` disagree on what counts as space: `trim` strips every
 * character up to U+0020 (control characters included), `isBlank` asks
 * `Character.isWhitespace` (which also knows the Unicode space separators).
 */
module JavaText {
  import opened Wrappers

  /** `StringBuilder.append(String)`: a null reference is appended as the text "null". */
  function Text(s: Option<string>): (r: string)
    ensures s.Some? ==> r == s.value
    ensures s.None? ==> r == "null"
  {
    match s
    case Some(t) => t
    case None => "null"
  }

  /**
   * `Character.isWhitespace` as of Java 9 (Unicode 8 and later): the Unicode
   * space, line and paragraph separators other than the no-break spaces
   * U+00A0, U+2007 and U+202F, plus the controls U+0009..U+000D and
   * U+001C..U+001F. Through Java 8, U+180E was a space separator as well.
   */
  predicate IsJavaWhitespace(c: char) {
    var n := c as int;
    (0x09 <= n <= 0x0D) || (0x1C <= n <= 0x20) || n == 0x1680
    || (0x2000 <= n <= 0x200A && n != 0x2007)
    || n == 0x2028 || n == 0x2029 || n == 0x205F || n == 0x3000
  }

  /** `StringUtils.isBlank`: null, empty, or whitespace only. */
  predicate IsBlank(s: Option<string>) {
    s.None? || forall i | 0 <= i < |s.value| :: IsJavaWhitespace(s.value[i])
  }

  /**
   * `isBlank` in its own terms: null and the empty string are blank, and a
   * concatenation is blank exactly when both parts are.
   */
  lemma BlankConcat(a: string, b: string)
    ensures IsBlank(None) && IsBlank(Some(""))
    ensures IsBlank(Some(a + b)) <==> IsBlank(Some(a)) && IsBlank(Some(b))
  {
    if IsBlank(Some(a + b)) {
      forall i | 0 <= i < |a| ensures IsJavaWhitespace(a[i]) {
        assert a[i] == (a + b)[i];
      }
      forall i | 0 <= i < |b| ensures IsJavaWhitespace(b[i]) {
        assert b[i] == (a + b)[|a| + i];
      }
    }
  }

  /**
   * Which characters `Character.isWhitespace` accepts: the ASCII space, tab
   * and line feed and the ideographic space are whitespace; the no-break
   * spaces and (from Java 9 on) the Mongolian vowel separator are not.
   */
  lemma WhitespaceSet()
    ensures IsJavaWhitespace(' ') && IsJavaWhitespace('\t') && IsJavaWhitespace('\n')
    ensures IsJavaWhitespace(0x3000 as char) && IsJavaWhitespace(0x2003 as char)
    ensures !IsJavaWhitespace(0xA0 as char) && !IsJavaWhitespace(0x2007 as char)
    ensures !IsJavaWhitespace(0x202F as char) && !IsJavaWhitespace(0x180E as char)
    ensures !IsJavaWhitespace('x') && !IsJavaWhitespace(0 as char)
  {
  }

  /** Index of the first character above U+0020, or |s| when there is none. */
  function TrimStart(s: string): (i: nat)
    ensures i <= |s|
    ensures forall k :: 0 <= k < i ==> s[k] <= ' '
    ensures i < |s| ==> s[i] > ' '
    decreases |s|
  {
    if |s| == 0 || s[0] > ' ' then 0 else 1 + TrimStart(s[1..])
  }

  /** One past the last character above U+0020 at or after `from`, or `from` when there is none. */
  function TrimEnd(s: string, from: nat): (j: nat)
    requires from <= |s|
    ensures from <= j <= |s|
    ensures forall k :: j <= k < |s| ==> s[k] <= ' '
    ensures j > from ==> s[j - 1] > ' '
    decreases |s|
  {
    if |s| > from && s[|s| - 1] <= ' ' then TrimEnd(s[..|s| - 1], from) else |s|
  }

  /**
   * `String.trim()`: the longest slice of `s` that neither starts nor ends
   * with a character at or below U+0020; everything cut off is at or below
   * U+0020.
   */
  function Trim(s: string): (r: string)
    ensures |r| <= |s|
    ensures r == [] || (r[0] > ' ' && r[|r| - 1] > ' ')
    ensures r == s[TrimStart(s)..TrimEnd(s, TrimStart(s))]
  {
    s[TrimStart(s)..TrimEnd(s, TrimStart(s))]
  }

  /** Text that already begins and ends above U+0020 is left as it is. */
  lemma TrimKeepsTrimmed(s: string)
    requires s == [] || (s[0] > ' ' && s[|s| - 1] > ' ')
    ensures Trim(s) == s
  {
    if s != [] {
      assert TrimStart(s) == 0;
      assert TrimEnd(s, 0) == |s|;
    }
  }

  /** Trimming twice is trimming once. */
  lemma TrimIdempotent(s: string)
    ensures Trim(Trim(s)) == Trim(s)
  {
    var r := Trim(s);
    assert TrimStart(r) == 0;
    assert TrimEnd(r, 0) == |r|;
  }

  /** `trim` yields the empty string exactly when every character is at or below U+0020. */
  lemma TrimEmptyIff(s: string)
    ensures Trim(s) == [] <==> forall k :: 0 <= k < |s| ==> s[k] <= ' '
  {
    var i := TrimStart(s);
    if i < |s| {
      assert s[i] > ' ';
      assert TrimEnd(s, i) > i;
    }
  }

  /**
   * On text whose only characters at or below U+0020 are exactly its Java
   * whitespace characters, `isBlank` and "trims to empty" agree.
   */
  lemma BlankIffTrimsEmpty(s: string)
    requires forall k :: 0 <= k < |s| ==> (s[k] <= ' ' <==> IsJavaWhitespace(s[k]))
    ensures IsBlank(Some(s)) <==> Trim(s) == []
  {
    TrimEmptyIff(s);
  }

  /** Outside that case they disagree in both directions. */
  lemma BlankAndTrimDisagree()
    ensures !IsBlank(Some([0 as char])) && Trim([0 as char]) == []
    ensures IsBlank(Some([0x3000 as char])) && Trim([0x3000 as char]) == [0x3000 as char]
  {
    assert !IsJavaWhitespace([0 as char][0]);
    assert TrimStart([0x3000 as char]) == 0;
  }
}
