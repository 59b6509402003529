/** The bare-import pattern `from\s+['"]([^./].+)['"]` of the rewriter, as a
    hand-written scanner. `Accepts` reads the pattern declaratively; `MatchAt`
    is what the regular-expression engine returns when it tries the pattern
    at one position, and its contract ties the two together: the engine
    finds a match exactly when the pattern accepts some prefix, and then the
    longest one, because `.+` is greedy. */
module ImportPattern {
  import opened Wrappers
  import opened JsText

  predicate IsQuote(c: char) {
    c == '\'' || c == '"'
  }

  /** No quote character of either kind occurs in `s`. */
  predicate QuoteFree(s: string) {
    forall k :: 0 <= k < |s| ==> !IsQuote(s[k])
  }

  /** A match found at the start of the text: how many whitespace characters
      follow `from`, how many characters the match spans, and the captured
      specifier (group 1). */
  datatype Match = Match(spaces: nat, length: nat, specifier: string)

  /** Index of the opening quote of a match with `w` whitespace characters. */
  function QuoteIndex(w: nat): nat { 4 + w }

  /** `s[..n]` is accepted by the pattern with `w` whitespace characters
      after `from`: `from`, whitespace, a quote, one character other than
      `.` and `/` (a line terminator included), at least one further
      character that is not a line terminator, and a closing quote of either
      kind. */
  predicate Accepts(s: string, w: nat, n: nat) {
    var q := QuoteIndex(w);
    w >= 1 && q + 4 <= n <= |s| && s[..4] == "from"
    && (forall k :: 4 <= k < q ==> IsSpace(s[k]))
    && IsQuote(s[q]) && s[q + 1] != '.' && s[q + 1] != '/'
    && (forall k :: q + 2 <= k < n - 1 ==> !IsLineTerminator(s[k]))
    && IsQuote(s[n - 1])
  }

  /** Length of the run of whitespace starting at `i`. */
  function SpaceRun(s: string, i: nat): (n: nat)
    requires i <= |s|
    ensures i + n <= |s|
    ensures forall k :: i <= k < i + n ==> IsSpace(s[k])
    ensures i + n == |s| || !IsSpace(s[i + n])
    decreases |s| - i
  {
    if i < |s| && IsSpace(s[i]) then 1 + SpaceRun(s, i + 1) else 0
  }

  /** Index of the first line terminator at or after `i`, or `|s|`. */
  function LineEnd(s: string, i: nat): (e: nat)
    requires i <= |s|
    ensures i <= e <= |s|
    ensures forall k :: i <= k < e ==> !IsLineTerminator(s[k])
    ensures e == |s| || IsLineTerminator(s[e])
    decreases |s| - i
  {
    if i == |s| || IsLineTerminator(s[i]) then i else LineEnd(s, i + 1)
  }

  /** Index of the last quote in `s[lo..hi]`, if any. */
  function LastQuote(s: string, lo: nat, hi: nat): (r: Option<nat>)
    requires lo <= hi <= |s|
    ensures r.Some? ==> lo <= r.value < hi && IsQuote(s[r.value])
    ensures r.Some? ==> forall k :: r.value < k < hi ==> !IsQuote(s[k])
    ensures r.None? ==> forall k :: lo <= k < hi ==> !IsQuote(s[k])
    decreases hi - lo
  {
    if hi == lo then None
    else if IsQuote(s[hi - 1]) then Some(hi - 1)
    else LastQuote(s, lo, hi - 1)
  }

  /** The pattern tried at the start of `s`. `\s+` has to take the whole
      whitespace run (a quote is not whitespace), and `.+` backtracks from
      the end of the line to the last quote on it. */
  function MatchAt(s: string): (r: Option<Match>)
    ensures r.Some? ==> Accepts(s, r.value.spaces, r.value.length)
    ensures r.Some? ==> r.value.specifier == s[QuoteIndex(r.value.spaces) + 1..r.value.length - 1]
    ensures forall w: nat, n: nat :: Accepts(s, w, n) ==> r.Some? && w == r.value.spaces && n <= r.value.length
  {
    if |s| < 4 || s[..4] != "from" then
      None
    else
      var w := SpaceRun(s, 4);
      var q := QuoteIndex(w);
      if w == 0 || q + 3 > |s| || !IsQuote(s[q]) || s[q + 1] == '.' || s[q + 1] == '/' then
        None
      else
        var e := LineEnd(s, q + 2);
        if e < q + 3 then
          None
        else
          match LastQuote(s, q + 3, e)
          case None => None
          case Some(j) => Some(Match(w, j + 1, s[q + 1..j]))
  }

  /** A captured specifier has at least two characters and does not start
      with `.` or `/`. */
  lemma CapturedSpecifier(s: string)
    requires MatchAt(s).Some?
    ensures var d := MatchAt(s).value.specifier;
      |d| >= 2 && d[0] != '.' && d[0] != '/'
  {
  }

  /** The capture runs to the last quote of the line on which `.+` starts:
      no quote follows the match before the next line terminator. */
  lemma MatchEndsAtLastQuoteOfLine(s: string)
    requires MatchAt(s).Some?
    ensures var m := MatchAt(s).value;
      var e := LineEnd(s, QuoteIndex(m.spaces) + 2);
      m.length <= e && forall k :: m.length <= k < e ==> !IsQuote(s[k])
  {
  }

  /** A specifier that starts with `.` or `/` (relative or absolute) is
      never matched, whatever follows it. */
  lemma RelativeNeverMatches(s: string, w: nat)
    requires w >= 1 && QuoteIndex(w) + 1 < |s| && s[..4] == "from"
    requires forall k :: 4 <= k < QuoteIndex(w) ==> IsSpace(s[k])
    requires IsQuote(s[QuoteIndex(w)])
    requires s[QuoteIndex(w) + 1] == '.' || s[QuoteIndex(w) + 1] == '/'
    ensures MatchAt(s).None?
  {
  }

  /** Acceptance of `s[..n]` looks at no character beyond the match, so it
      is the same in any text that shares those characters. */
  lemma AcceptsOnPrefix(s: string, x: string, w: nat, n: nat)
    requires |x| <= |s| && x == s[..|x|] && n <= |x|
    ensures Accepts(s, w, n) <==> Accepts(x, w, n)
  {
    if 4 <= n {
      assert s[..4] == x[..4];
      assert forall k :: 0 <= k < n ==> s[k] == x[k];
    }
  }

  /** A match ends on a quote, so it cannot reach into quote-free text. */
  lemma AcceptsBeforeQuoteFree(x: string, t: string, w: nat, n: nat)
    requires QuoteFree(t) && Accepts(x + t, w, n)
    ensures n <= |x|
  {
  }

  /** When each text accepts the other's match and the first text is a
      prefix of the second, both give the same match. */
  lemma MatchAtAgrees(s: string, x: string)
    requires |x| <= |s| && x == s[..|x|]
    requires MatchAt(s).Some? ==> Accepts(x, MatchAt(s).value.spaces, MatchAt(s).value.length)
    requires MatchAt(x).Some? ==> Accepts(s, MatchAt(x).value.spaces, MatchAt(x).value.length)
    ensures MatchAt(s) == MatchAt(x)
  {
    if MatchAt(s).Some? {
      var m := MatchAt(s).value;
      var m' := MatchAt(x).value;
      assert m.spaces == m'.spaces && m.length == m'.length;
      assert s[QuoteIndex(m.spaces) + 1..m.length - 1] == x[QuoteIndex(m.spaces) + 1..m.length - 1];
    }
  }

  /** Appending text without quote characters changes no match: a match
      ends at a quote, so it lies within the original text. */
  lemma MatchAtQuoteFreeSuffix(x: string, t: string)
    requires QuoteFree(t)
    ensures MatchAt(x + t) == MatchAt(x)
  {
    var s := x + t;
    assert x == s[..|x|];
    if MatchAt(s).Some? {
      var m := MatchAt(s).value;
      AcceptsBeforeQuoteFree(x, t, m.spaces, m.length);
      AcceptsOnPrefix(s, x, m.spaces, m.length);
    }
    if MatchAt(x).Some? {
      var m := MatchAt(x).value;
      AcceptsOnPrefix(s, x, m.spaces, m.length);
    }
    MatchAtAgrees(s, x);
  }

  /** Text without quote characters holds no match anywhere. */
  lemma QuoteFreeNeverMatches(s: string)
    requires QuoteFree(s)
    ensures MatchAt(s).None?
  {
  }

  /** What any match needs at its start: `from` followed by whitespace. */
  lemma MatchNeeds(s: string)
    ensures MatchAt(s).Some? ==> |s| >= 9 && s[..4] == "from" && IsSpace(s[4])
  {
  }
}
