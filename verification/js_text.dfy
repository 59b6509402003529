/** The few ECMAScript string primitives the server relies on: the `\s` and
    line-terminator character classes of regular expressions, `endsWith`,
    `String.prototype.replace` with a string pattern, and the decimal
    rendering of the integer returned by `Date.now()`. */
module JsText {
  import opened Wrappers

  /** `\s`: the WhiteSpace and LineTerminator code points of ECMAScript. On
      ASCII text these are the space and the controls from tab to carriage
      return. */
  predicate IsSpace(c: char)
    ensures c as int < 0x80 ==> (IsSpace(c) <==> c == ' ' || '\t' <= c <= '\r')
  {
    var n := c as int;
    (9 <= n <= 13) || n == 0x20 || n == 0xA0 || n == 0x1680 || (0x2000 <= n <= 0x200A)
    || n == 0x2028 || n == 0x2029 || n == 0x202F || n == 0x205F || n == 0x3000 || n == 0xFEFF
  }

  /** The characters that `.` does not match (no `s` flag); each of them is
      also matched by `\s`. */
  predicate IsLineTerminator(c: char)
    ensures IsLineTerminator(c) ==> IsSpace(c)
  {
    var n := c as int;
    n == 0x0A || n == 0x0D || n == 0x2028 || n == 0x2029
  }

  predicate IsDigit(c: char) {
    '0' <= c <= '9'
  }

  /** `s.endsWith(suffix)`. */
  predicate EndsWith(s: string, suffix: string) {
    |suffix| <= |s| && s[|s| - |suffix|..] == suffix
  }

  predicate OccursAt(s: string, pat: string, i: nat) {
    i + |pat| <= |s| && s[i..i + |pat|] == pat
  }

  /** `i` is the leftmost position where `pat` occurs in `s`. */
  predicate IsFirstOccurrence(s: string, pat: string, i: nat) {
    OccursAt(s, pat, i) && forall k: nat :: k < i ==> !OccursAt(s, pat, k)
  }

  predicate Absent(s: string, pat: string) {
    forall k: nat :: k <= |s| ==> !OccursAt(s, pat, k)
  }

  lemma OccursAtTail(s: string, pat: string, i: nat)
    requires s != []
    ensures OccursAt(s, pat, i + 1) <==> OccursAt(s[1..], pat, i)
  {
    if i + 1 + |pat| <= |s| {
      assert s[i + 1..i + 1 + |pat|] == s[1..][i..i + |pat|];
    }
  }

  /** `s.replace(pat, rep)` where `pat` is a string and `rep` holds no `$`
      pattern: the string scanned from the left, the first occurrence of
      `pat` replaced by `rep`. */
  function ReplaceFirst(s: string, pat: string, rep: string): string
    decreases |s|
  {
    if OccursAt(s, pat, 0) then rep + s[|pat|..]
    else if s == [] then s
    else [s[0]] + ReplaceFirst(s[1..], pat, rep)
  }

  /** A string in which `pat` does not occur is returned unchanged. */
  lemma {:induction false} ReplaceFirstAbsent(s: string, pat: string, rep: string)
    requires Absent(s, pat)
    ensures ReplaceFirst(s, pat, rep) == s
    decreases |s|
  {
    assert !OccursAt(s, pat, 0);
    if s != [] {
      forall k: nat | k <= |s| - 1 ensures !OccursAt(s[1..], pat, k) {
        OccursAtTail(s, pat, k);
      }
      ReplaceFirstAbsent(s[1..], pat, rep);
    }
  }

  /** Past the first character, the first occurrence is one position
      earlier in the rest. */
  lemma FirstOccurrenceTail(s: string, pat: string, i: nat)
    requires IsFirstOccurrence(s, pat, i) && i > 0
    ensures s != [] && !OccursAt(s, pat, 0) && IsFirstOccurrence(s[1..], pat, i - 1)
  {
    OccursAtTail(s, pat, i - 1);
    forall k: nat | k < i - 1 ensures !OccursAt(s[1..], pat, k) {
      OccursAtTail(s, pat, k);
    }
  }

  /** Where `pat` does not start, the first character is kept. */
  lemma ReplaceFirstKeepsFirst(s: string, pat: string, rep: string)
    requires s != [] && !OccursAt(s, pat, 0)
    ensures ReplaceFirst(s, pat, rep) == [s[0]] + ReplaceFirst(s[1..], pat, rep)
  {
  }

  /** Only the leftmost occurrence is replaced; the text around it is kept. */
  lemma {:induction false} ReplaceFirstAt(s: string, pat: string, rep: string, i: nat)
    requires IsFirstOccurrence(s, pat, i)
    ensures ReplaceFirst(s, pat, rep) == s[..i] + rep + s[i + |pat|..]
    decreases |s|
  {
    if i > 0 {
      var t := s[1..];
      FirstOccurrenceTail(s, pat, i);
      ReplaceFirstKeepsFirst(s, pat, rep);
      ReplaceFirstAt(t, pat, rep, i - 1);
      assert s[..i] == [s[0]] + t[..i - 1];
      assert s[i + |pat|..] == t[i - 1 + |pat|..];
    }
  }

  /** Value of a string of decimal digits, most significant first. */
  function DecimalValue(s: string): nat
    requires forall i :: 0 <= i < |s| ==> IsDigit(s[i])
  {
    if s == [] then 0
    else
      var d := s[|s| - 1];
      assert IsDigit(d);
      10 * DecimalValue(s[..|s| - 1]) + (d as int - '0' as int)
  }

  /** How a non-negative integer such as `Date.now()` is interpolated into a
      template literal: its decimal digits without leading zeros. */
  function Decimal(n: nat): (r: string)
    ensures r != [] && (forall i :: 0 <= i < |r| ==> IsDigit(r[i]))
    ensures DecimalValue(r) == n
    ensures r[0] == '0' ==> n == 0
  {
    var last := ['0' + ((n % 10) as char)];
    if n < 10 then
      last
    else
      var r := Decimal(n / 10) + last;
      assert r[..|r| - 1] == Decimal(n / 10);
      r
  }
}
