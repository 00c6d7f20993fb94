/** String operations the application relies on: lower-casing, substring
    search, whitespace trimming and case-insensitive suffix removal. */
module Text {

  /** Lower-cases one character; only the ASCII letters A-Z are mapped. */
  function LowerChar(c: char): (r: char)
    ensures 'A' <= c <= 'Z' ==> 'a' <= r <= 'z' && r as int == c as int + 32
    ensures !('A' <= c <= 'Z') ==> r == c
  {
    if 'A' <= c <= 'Z' then (c as int + 32) as char else c
  }

  /** `toLowerCase`, character by character. */
  function Lower(s: string): (r: string)
    ensures |r| == |s|
    ensures forall i :: 0 <= i < |s| ==> r[i] == LowerChar(s[i])
  {
    seq(|s|, i requires 0 <= i < |s| => LowerChar(s[i]))
  }

  /** Lower-casing twice is lower-casing once. */
  lemma LowerIdempotent(s: string)
    ensures Lower(Lower(s)) == Lower(s)
  {
  }

  predicate StartsWith(s: string, p: string) {
    |p| <= |s| && s[..|p|] == p
  }

  /** `s.includes(t)`: some position of `s` starts a copy of `t`. */
  predicate Contains(s: string, t: string)
    decreases |s|
  {
    StartsWith(s, t) || (|s| > 0 && Contains(s[1..], t))
  }

  /** `t` occurs in `s` starting at offset `k`. */
  predicate OccursAt(s: string, t: string, k: nat) {
    k + |t| <= |s| && s[k..k + |t|] == t
  }

  /** `Contains` agrees with the direct definition by an offset. */
  lemma {:induction false} ContainsAt(s: string, t: string)
    ensures Contains(s, t) <==> exists k: nat :: OccursAt(s, t, k)
  {
    if StartsWith(s, t) {
      assert OccursAt(s, t, 0);
    } else if |s| > 0 {
      ContainsAt(s[1..], t);
      if Contains(s[1..], t) {
        var k: nat :| OccursAt(s[1..], t, k);
        assert s[1..][k..k + |t|] == s[k + 1..k + 1 + |t|];
        assert OccursAt(s, t, k + 1);
      } else {
        forall k: nat | k + |t| <= |s| ensures !OccursAt(s, t, k) {
          if k > 0 {
            NoOccurrenceShift(s, t, k);
          }
        }
      }
    }
  }

  /** No copy at `k - 1` in the tail means no copy at `k` in `s`. */
  lemma NoOccurrenceShift(s: string, t: string, k: nat)
    requires |s| > 0 && k > 0 && !OccursAt(s[1..], t, k - 1)
    ensures !OccursAt(s, t, k)
  {
    if k + |t| <= |s| {
      var tail := s[1..];
      var here, there := s[k..k + |t|], tail[k - 1..k - 1 + |t|];
      forall i | 0 <= i < |t| ensures here[i] == there[i] {
        assert tail[k - 1 + i] == s[k + i];
      }
      assert here == there;
    }
  }

  /** Every string includes the empty string. */
  lemma ContainsEmpty(s: string)
    ensures Contains(s, "")
  {
  }

  /** The characters `String.prototype.trim` removes: the ECMAScript white
      space and line terminator code points. */
  predicate IsSpace(c: char) {
    ('\U{0009}' <= c <= '\U{000D}') || c == ' ' || c == '\U{00A0}' || c == '\U{1680}'
    || ('\U{2000}' <= c <= '\U{200A}')
    || c == '\U{2028}' || c == '\U{2029}' || c == '\U{202F}' || c == '\U{205F}'
    || c == '\U{3000}' || c == '\U{FEFF}'
  }

  predicate IsBlank(s: string) {
    forall i :: 0 <= i < |s| ==> IsSpace(s[i])
  }

  /** `s` with its leading white space removed. */
  function TrimStart(s: string): (r: string)
    ensures |r| <= |s| && r == s[|s| - |r|..]
    ensures IsBlank(s[..|s| - |r|])
    ensures r != [] ==> !IsSpace(r[0])
  {
    if s != [] && IsSpace(s[0]) then TrimStart(s[1..]) else s
  }

  /** `s` with its trailing white space removed. */
  function TrimEnd(s: string): (r: string)
    ensures |r| <= |s| && r == s[..|r|]
    ensures IsBlank(s[|r|..])
    ensures r != [] ==> !IsSpace(r[|r| - 1])
  {
    if s != [] && IsSpace(s[|s| - 1]) then TrimEnd(s[..|s| - 1]) else s
  }

  /** `s.trim()`. */
  function Trim(s: string): string {
    TrimEnd(TrimStart(s))
  }

  /** Trimming leaves nothing exactly when the string is all white space,
      which is the test applied to uploaded content. */
  lemma TrimEmptyIffBlank(s: string)
    ensures Trim(s) == "" <==> IsBlank(s)
  {
  }

  /** `name` ends with `suffix`, ignoring ASCII case. */
  predicate EndsWithIgnoringCase(name: string, suffix: string) {
    |suffix| <= |name| && Lower(name[|name| - |suffix|..]) == Lower(suffix)
  }

  /** `name.replace(/<suffix>$/i, '')`: a trailing `suffix`, compared
      without regard to ASCII case, is cut off. */
  function StripSuffixIgnoringCase(name: string, suffix: string): (r: string)
    ensures StartsWith(name, r)
    ensures EndsWithIgnoringCase(name, suffix) ==> |r| == |name| - |suffix|
    ensures !EndsWithIgnoringCase(name, suffix) ==> r == name
  {
    if EndsWithIgnoringCase(name, suffix) then name[..|name| - |suffix|] else name
  }
}
