/** `rewriteImport` and `getTargetDepModuleEntry`: every match of the
    bare-import pattern, scanned left to right without overlap, is replaced by
    an import of the dependency's browser entry under `/node_modules`. The
    installed manifests are a parameter: a package name is either absent
    (reading its `package.json` throws) or maps to its `module` field, which
    may itself be missing. */
module ImportRewriter {
  import opened Wrappers
  import opened JsText
  import opened ImportPattern

  /** The one field of a `package.json` the server reads. */
  datatype Manifest = Manifest(moduleEntry: Option<string>)

  type Manifests = map<string, Manifest>

  datatype RewriteError = ManifestNotFound(specifier: string)

  const MountPrefix := "/node_modules"

  /** `['/node_modules', dep, entry].join('/')`; a missing `module` field
      (`undefined` or `null`) is joined as the empty string. */
  function EntryPath(dep: string, entry: Option<string>): string {
    MountPrefix + "/" + dep + "/" + (if entry.Some? then entry.value else "")
  }

  /** The text that replaces one match. */
  function Replacement(dep: string, entry: Option<string>): string {
    "from \"" + EntryPath(dep, entry) + "\""
  }

  /** The replacement spelled out as one string. */
  lemma ReplacementText(dep: string, entry: Option<string>)
    ensures Replacement(dep, entry) == "from \"/node_modules/" + dep + "/" + entry.GetOr("") + "\""
  {
    var e := entry.GetOr("");
    var tail := dep + "/" + e;
    assert EntryPath(dep, entry) == "/node_modules/" + tail;
    assert "from \"" + ("/node_modules/" + tail) == "from \"/node_modules/" + tail;
  }

  /** The callback of `rewriteImport` for one captured specifier, including
      the manifest lookup of `getTargetDepModuleEntry`. The specifier is used
      whole as the package directory. */
  function ResolveImport(manifests: Manifests, dep: string): (r: Result<string, RewriteError>)
    ensures r.Err? <==> dep !in manifests
    ensures r.Err? ==> r.error == ManifestNotFound(dep)
    ensures r.Ok? ==> r.value == "from \"/node_modules/" + dep + "/" + manifests[dep].moduleEntry.GetOr("") + "\""
  {
    if dep in manifests then
      ReplacementText(dep, manifests[dep].moduleEntry);
      Ok(Replacement(dep, manifests[dep].moduleEntry))
    else Err(ManifestNotFound(dep))
  }

  function Prepend(p: string, r: Result<string, RewriteError>): Result<string, RewriteError> {
    if r.Ok? then Ok(p + r.value) else r
  }

  /** The first piece followed by the replacement of the rest; a failing
      first piece fails the whole. */
  function Chain(head: Result<string, RewriteError>, rest: Result<string, RewriteError>): Result<string, RewriteError> {
    if head.Err? then head else Prepend(head.value, rest)
  }

  function Append(r: Result<string, RewriteError>, t: string): Result<string, RewriteError> {
    if r.Ok? then Ok(r.value + t) else r
  }

  /** What the regular-expression engine reports when it tries a pattern at
      the start of a text. */
  type Scanner = string -> Option<Match>

  /** Every match the scanner reports is non-empty and lies within the text. */
  ghost predicate Advances(scan: Scanner) {
    forall x: string :: scan(x).Some? ==> 0 < scan(x).value.length <= |x|
  }

  lemma MatchAtAdvances()
    ensures Advances(MatchAt)
  {
  }

  /** `String.prototype.replace` with a global pattern whose attempt at one
      position is `scan`, and the callback `ResolveImport`: the engine tries
      the pattern at each position from the left; after a match it resumes
      at the match's end, otherwise one character further. The first
      callback that throws aborts the whole replacement. Only scanners whose
      matches are non-empty are covered (`Advances`); the engine's handling of
      an empty match is not modelled, and the bare-import pattern never
      matches the empty string. */
  function ReplaceAll(scan: Scanner, s: string, manifests: Manifests): (r: Result<string, RewriteError>)
    requires Advances(scan)
    ensures r.Err? ==> r.error.specifier !in manifests
    decreases |s|
  {
    if s == [] then Ok([])
    else
      match scan(s)
      case None => Prepend([s[0]], ReplaceAll(scan, s[1..], manifests))
      case Some(m) =>
        match ResolveImport(manifests, m.specifier)
        case Err(e) => Err(e)
        case Ok(text) => Prepend(text, ReplaceAll(scan, s[m.length..], manifests))
  }

  /** `content.replace(absolutePathReg, callback)`: every match of the
      bare-import pattern, left to right and without overlap, is replaced by
      the import of its dependency's entry; a failed rewrite names a package
      that has no manifest. */
  function Rewrite(s: string, manifests: Manifests): (r: Result<string, RewriteError>)
    ensures r.Err? ==> r.error.specifier !in manifests
  {
    MatchAtAdvances();
    ReplaceAll(MatchAt, s, manifests)
  }

  /** The replacer's view of a text: characters where the pattern does not
      match, and matches, each with the whitespace count and the captured
      specifier. */
  datatype Segment =
    | Verbatim(c: char)
    | Import(source: string, spaces: nat, specifier: string)

  /** The source text one segment was cut from. */
  function Source(seg: Segment): string {
    if seg.Verbatim? then [seg.c] else seg.source
  }

  /** The source text a list of segments was cut from. */
  function Flatten(segs: seq<Segment>): string {
    if segs == [] then [] else Source(segs[0]) + Flatten(segs[1..])
  }

  /** The same left-to-right, non-overlapping scan as `ReplaceAll`, without
      resolving anything. */
  function Split(scan: Scanner, s: string): seq<Segment>
    requires Advances(scan)
    decreases |s|
  {
    if s == [] then []
    else
      match scan(s)
      case None => [Verbatim(s[0])] + Split(scan, s[1..])
      case Some(m) => [Import(s[..m.length], m.spaces, m.specifier)] + Split(scan, s[m.length..])
  }

  /** The segments of a text under the bare-import pattern. */
  function Segments(s: string): seq<Segment> {
    MatchAtAdvances();
    Split(MatchAt, s)
  }

  /** Where the scan resumes after the first segment. */
  function Resume(scan: Scanner, s: string): (k: nat)
    requires Advances(scan) && s != []
    ensures 0 < k <= |s|
  {
    match scan(s)
    case None => 1
    case Some(m) => m.length
  }

  lemma SplitStep(scan: Scanner, s: string)
    requires Advances(scan) && s != []
    ensures Split(scan, s) != [] && Split(scan, s)[1..] == Split(scan, s[Resume(scan, s)..])
    ensures Split(scan, s)[0].Verbatim? ==> Split(scan, s)[0].c == s[0] && scan(s).None?
    ensures Split(scan, s)[0].Import? ==>
      (scan(s).Some?
       && Split(scan, s)[0] == Import(s[..Resume(scan, s)], scan(s).value.spaces, scan(s).value.specifier))
    ensures Source(Split(scan, s)[0]) == s[..Resume(scan, s)]
  {
    if scan(s).None? {
      assert s[..1] == [s[0]];
    }
  }

  lemma FlattenStep(scan: Scanner, s: string)
    requires Advances(scan) && s != []
    ensures Flatten(Split(scan, s)) == s[..Resume(scan, s)] + Flatten(Split(scan, s[Resume(scan, s)..]))
  {
    SplitStep(scan, s);
  }

  /** The segments cover the text when those of the rest cover the rest. */
  lemma CoverStep(scan: Scanner, s: string)
    requires Advances(scan) && s != []
    requires Flatten(Split(scan, s[Resume(scan, s)..])) == s[Resume(scan, s)..]
    ensures Flatten(Split(scan, s)) == s
  {
    var k := Resume(scan, s);
    FlattenStep(scan, s);
    assert s == s[..k] + s[k..];
  }

  /** The segments put the text back together exactly. */
  lemma {:induction false} SplitCovers(scan: Scanner, s: string)
    requires Advances(scan)
    ensures Flatten(Split(scan, s)) == s
    decreases |s|
  {
    if s != [] {
      SplitCovers(scan, s[Resume(scan, s)..]);
      CoverStep(scan, s);
    }
  }

  lemma SegmentsCover(s: string)
    ensures Flatten(Segments(s)) == s
  {
    MatchAtAdvances();
    SplitCovers(MatchAt, s);
  }

  /** Where segment `i` starts in the text. */
  function Offset(segs: seq<Segment>, i: nat): nat
    requires i <= |segs|
  {
    |Flatten(segs[..i])|
  }

  /** `seg` is what the engine finds at offset `p` of `s`: a verbatim
      character exactly where no match starts, and an import exactly where
      one does, cut from the text the match spans, with the match's
      whitespace count and capture. */
  predicate FoundAt(scan: Scanner, s: string, p: nat, seg: Segment) {
    p < |s|
    && (seg.Verbatim? ==> seg.c == s[p] && scan(s[p..]).None?)
    && (seg.Import? ==>
          scan(s[p..]) == Some(Match(seg.spaces, |seg.source|, seg.specifier))
          && p + |seg.source| <= |s| && seg.source == s[p..p + |seg.source|])
  }

  /** What is found at offset `p` of a suffix starting at `k` is found at
      offset `o = k + p` of the whole text. */
  lemma FoundAtShift(scan: Scanner, s: string, k: nat, p: nat, o: nat, seg: Segment)
    requires k <= |s| && o == k + p && FoundAt(scan, s[k..], p, seg)
    ensures FoundAt(scan, s, o, seg)
  {
    assert s[k..][p..] == s[o..];
    assert s[k..][p] == s[o];
    if seg.Import? {
      assert s[k..][p..p + |seg.source|] == s[o..o + |seg.source|];
    }
  }

  lemma FirstSegmentFound(scan: Scanner, s: string)
    requires Advances(scan) && Split(scan, s) != []
    ensures FoundAt(scan, s, Offset(Split(scan, s), 0), Split(scan, s)[0])
  {
    SplitStep(scan, s);
    assert Split(scan, s)[..0] == [];
    assert s[Offset(Split(scan, s), 0)..] == s;
  }

  /** Segment `i` is segment `i - 1` of the rest, and it starts the first
      segment's length further on. */
  lemma OffsetStep(scan: Scanner, s: string, i: nat)
    requires Advances(scan) && 0 < i < |Split(scan, s)|
    ensures s != [] && i - 1 < |Split(scan, s[Resume(scan, s)..])|
    ensures Split(scan, s)[i] == Split(scan, s[Resume(scan, s)..])[i - 1]
    ensures Offset(Split(scan, s), i) == Resume(scan, s) + Offset(Split(scan, s[Resume(scan, s)..]), i - 1)
  {
    var segs := Split(scan, s);
    SplitStep(scan, s);
    var rest := Split(scan, s[Resume(scan, s)..]);
    assert segs[i] == segs[1..][i - 1];
    assert segs[..i][0] == segs[0] && segs[..i][1..] == rest[..i - 1];
  }

  /** Segment `i` is found where segment `i - 1` of the rest is found in
      the rest. */
  lemma NextSegmentFound(scan: Scanner, s: string, i: nat)
    requires Advances(scan) && 0 < i < |Split(scan, s)| && s != []
    requires i - 1 < |Split(scan, s[Resume(scan, s)..])|
    requires FoundAt(scan, s[Resume(scan, s)..], Offset(Split(scan, s[Resume(scan, s)..]), i - 1),
                     Split(scan, s[Resume(scan, s)..])[i - 1])
    ensures FoundAt(scan, s, Offset(Split(scan, s), i), Split(scan, s)[i])
  {
    var k := Resume(scan, s);
    OffsetStep(scan, s, i);
    FoundAtShift(scan, s, k, Offset(Split(scan, s[k..]), i - 1), Offset(Split(scan, s), i), Split(scan, s)[i]);
  }

  /** Segment `i` is what the engine finds at its offset. */
  lemma {:induction false} SegmentAt(scan: Scanner, s: string, i: nat)
    requires Advances(scan) && i < |Split(scan, s)|
    ensures FoundAt(scan, s, Offset(Split(scan, s), i), Split(scan, s)[i])
    decreases i
  {
    if i == 0 {
      FirstSegmentFound(scan, s);
    } else {
      OffsetStep(scan, s, i);
      SegmentAt(scan, s[Resume(scan, s)..], i - 1);
      NextSegmentFound(scan, s, i);
    }
  }

  /** The scan is the engine's global search for the bare-import pattern: at
      every offset it reaches, a verbatim character stands exactly where no
      match starts and an import piece is exactly the match found there. */
  lemma SegmentsAreScan(s: string)
    ensures forall i :: 0 <= i < |Segments(s)| ==> FoundAt(MatchAt, s, Offset(Segments(s), i), Segments(s)[i])
  {
    MatchAtAdvances();
    forall i | 0 <= i < |Segments(s)| ensures FoundAt(MatchAt, s, Offset(Segments(s), i), Segments(s)[i]) {
      SegmentAt(MatchAt, s, i);
    }
  }

  /** An accepted prefix is accepted on its own. */
  lemma AcceptsPrefix(s: string, w: nat, n: nat)
    requires Accepts(s, w, n)
    ensures Accepts(s[..n], w, n)
  {
    assert forall k :: 0 <= k < n ==> s[..n][k] == s[k];
    assert s[..n][..4] == s[..4];
  }

  /** An `Import` segment is one whole match of the pattern, and its
      specifier is the text between the two quotes. */
  predicate WholeMatch(seg: Segment) {
    seg.Import? ==>
      Accepts(seg.source, seg.spaces, |seg.source|)
      && seg.specifier == seg.source[QuoteIndex(seg.spaces) + 1..|seg.source| - 1]
  }

  lemma FoundImportIsWholeMatch(s: string, p: nat, seg: Segment)
    requires FoundAt(MatchAt, s, p, seg)
    ensures WholeMatch(seg)
  {
    if seg.Import? {
      var t := s[p..];
      var m := MatchAt(t).value;
      AcceptsPrefix(t, m.spaces, m.length);
      assert t[..m.length] == seg.source;
      assert seg.source[QuoteIndex(m.spaces) + 1..m.length - 1] == t[QuoteIndex(m.spaces) + 1..m.length - 1];
    }
  }

  /** Every segment the scan produces as an import is a whole match. */
  lemma SegmentsAreMatches(s: string)
    ensures forall i :: 0 <= i < |Segments(s)| ==> WholeMatch(Segments(s)[i])
  {
    SegmentsAreScan(s);
    forall i | 0 <= i < |Segments(s)| ensures WholeMatch(Segments(s)[i]) {
      FoundImportIsWholeMatch(s, Offset(Segments(s), i), Segments(s)[i]);
    }
  }

  /** Every specifier captured in the segments has a manifest. */
  predicate AllResolvable(segs: seq<Segment>, manifests: Manifests) {
    forall i :: 0 <= i < |segs| && segs[i].Import? ==> segs[i].specifier in manifests
  }

  /** The rewritten text: verbatim characters kept, each match replaced by
      its import of the dependency's entry. */
  function Substituted(segs: seq<Segment>, manifests: Manifests): string
    requires AllResolvable(segs, manifests)
  {
    if segs == [] then []
    else
      (match segs[0]
       case Verbatim(c) => [c]
       case Import(_, _, dep) => Replacement(dep, manifests[dep].moduleEntry))
      + Substituted(segs[1..], manifests)
  }

  lemma AllResolvableStep(segs: seq<Segment>, manifests: Manifests)
    requires segs != []
    ensures AllResolvable(segs, manifests) <==>
      (segs[0].Import? ==> segs[0].specifier in manifests) && AllResolvable(segs[1..], manifests)
  {
    assert forall i :: 1 <= i < |segs| ==> segs[i] == segs[1..][i - 1];
  }

  /** The replacement succeeds exactly when every captured specifier has a
      manifest, and then keeps the text outside the matches verbatim and in
      order while replacing each match by its import of the dependency's
      entry. */
  lemma {:induction false} ReplaceAllBySplit(scan: Scanner, s: string, manifests: Manifests)
    requires Advances(scan)
    ensures ReplaceAll(scan, s, manifests).Ok? <==> AllResolvable(Split(scan, s), manifests)
    ensures ReplaceAll(scan, s, manifests).Ok? ==>
      ReplaceAll(scan, s, manifests).value == Substituted(Split(scan, s), manifests)
    decreases |s|
  {
    if s != [] {
      SplitStep(scan, s);
      var segs := Split(scan, s);
      ReplaceAllBySplit(scan, s[Resume(scan, s)..], manifests);
      AllResolvableStep(segs, manifests);
    }
  }

  lemma RewriteBySegments(s: string, manifests: Manifests)
    ensures Rewrite(s, manifests).Ok? <==> AllResolvable(Segments(s), manifests)
    ensures Rewrite(s, manifests).Ok? ==>
      Rewrite(s, manifests).value == Substituted(Segments(s), manifests)
  {
    MatchAtAdvances();
    ReplaceAllBySplit(MatchAt, s, manifests);
  }

  /** What the first piece of a non-empty text is replaced by: its first
      character, or the callback's result for a match there. */
  function FirstPiece(scan: Scanner, s: string, manifests: Manifests): Result<string, RewriteError>
    requires s != []
  {
    match scan(s)
    case None => Ok([s[0]])
    case Some(m) => ResolveImport(manifests, m.specifier)
  }

  lemma ReplaceAllStep(scan: Scanner, s: string, manifests: Manifests)
    requires Advances(scan) && s != []
    ensures ReplaceAll(scan, s, manifests) ==
      Chain(FirstPiece(scan, s, manifests), ReplaceAll(scan, s[Resume(scan, s)..], manifests))
  {
  }

  /** Segment `i` of the rest is segment `i + 1` of the whole, and the
      segments before it are resolvable when those before it in the rest
      and the first one are. */
  lemma ResolvableBefore(segs: seq<Segment>, i: nat, manifests: Manifests)
    requires i + 1 < |segs|
    requires (segs[0].Import? ==> segs[0].specifier in manifests) && AllResolvable(segs[1..][..i], manifests)
    ensures segs[i + 1] == segs[1..][i] && AllResolvable(segs[..i + 1], manifests)
  {
    assert segs[..i + 1][1..] == segs[1..][..i];
    AllResolvableStep(segs[..i + 1], manifests);
  }

  /** A failed replacement names the first specifier, from the left, that
      has no manifest. */
  lemma {:induction false} ReplaceAllFailsAtFirstUnresolved(scan: Scanner, s: string, manifests: Manifests)
    requires Advances(scan) && ReplaceAll(scan, s, manifests).Err?
    ensures exists i ::
      (0 <= i < |Split(scan, s)| && Split(scan, s)[i].Import?
       && ReplaceAll(scan, s, manifests).error == ManifestNotFound(Split(scan, s)[i].specifier)
       && Split(scan, s)[i].specifier !in manifests
       && AllResolvable(Split(scan, s)[..i], manifests))
    decreases |s|
  {
    var k := Resume(scan, s);
    SplitStep(scan, s);
    ReplaceAllStep(scan, s, manifests);
    var segs := Split(scan, s);
    if FirstPiece(scan, s, manifests).Err? {
      assert segs[0].Import? && segs[0].specifier !in manifests;
      assert AllResolvable(segs[..0], manifests);
    } else {
      var tail := s[k..];
      var rest := segs[1..];
      assert ReplaceAll(scan, tail, manifests).Err?;
      assert ReplaceAll(scan, s, manifests).error == ReplaceAll(scan, tail, manifests).error;
      ReplaceAllFailsAtFirstUnresolved(scan, tail, manifests);
      var i :| 0 <= i < |rest| && rest[i].Import?
        && ReplaceAll(scan, tail, manifests).error == ManifestNotFound(rest[i].specifier)
        && rest[i].specifier !in manifests
        && AllResolvable(rest[..i], manifests);
      assert segs[0].Import? ==> segs[0].specifier in manifests;
      ResolvableBefore(segs, i, manifests);
    }
  }

  lemma RewriteFailsAtFirstUnresolved(s: string, manifests: Manifests)
    requires Rewrite(s, manifests).Err?
    ensures exists i ::
      (0 <= i < |Segments(s)| && Segments(s)[i].Import?
       && Rewrite(s, manifests).error == ManifestNotFound(Segments(s)[i].specifier)
       && Segments(s)[i].specifier !in manifests
       && AllResolvable(Segments(s)[..i], manifests))
  {
    MatchAtAdvances();
    var segs := Split(MatchAt, s);
    var e := ReplaceAll(MatchAt, s, manifests).error;
    assert Segments(s) == segs && Rewrite(s, manifests).error == e;
    ReplaceAllFailsAtFirstUnresolved(MatchAt, s, manifests);
    var i :| 0 <= i < |segs| && segs[i].Import? && e == ManifestNotFound(segs[i].specifier)
      && segs[i].specifier !in manifests && AllResolvable(segs[..i], manifests);
    assert Segments(s)[i] == segs[i] && Segments(s)[..i] == segs[..i];
  }

  /** Where no match starts, the first character is kept as it is. */
  lemma ReplaceAllKeepsFirst(scan: Scanner, s: string, manifests: Manifests)
    requires Advances(scan) && s != [] && scan(s).None?
    ensures ReplaceAll(scan, s, manifests) == Prepend([s[0]], ReplaceAll(scan, s[1..], manifests))
  {
  }

  lemma PrependTwice(c: char, p: string, r: Result<string, RewriteError>)
    ensures Prepend([c], Prepend(p, r)) == Prepend([c] + p, r)
  {
    if r.Ok? {
      assert [c] + (p + r.value) == ([c] + p) + r.value;
    }
  }

  /** No match starts in `p` of `p + q`: in particular not at its start,
      and not in the rest of `p` either. */
  lemma NoMatchInTail(scan: Scanner, p: string, q: string)
    requires p != [] && forall i :: 0 <= i < |p| ==> scan((p + q)[i..]).None?
    ensures scan(p + q).None? && (p + q)[0] == p[0] && (p + q)[1..] == p[1..] + q
    ensures forall i :: 0 <= i < |p| - 1 ==> scan((p[1..] + q)[i..]).None?
  {
    var s := p + q;
    assert s[0..] == s;
    assert s[1..] == p[1..] + q;
    forall i | 0 <= i < |p| - 1 ensures scan((p[1..] + q)[i..]).None? {
      assert (p[1..] + q)[i..] == s[i + 1..];
    }
  }

  /** Text in which no match starts is copied unchanged in front of the
      replacement of what follows it. */
  lemma {:induction false} ReplaceAllSkipsPrefix(scan: Scanner, p: string, q: string, manifests: Manifests)
    requires Advances(scan)
    requires forall i :: 0 <= i < |p| ==> scan((p + q)[i..]).None?
    ensures ReplaceAll(scan, p + q, manifests) == Prepend(p, ReplaceAll(scan, q, manifests))
    decreases |p|
  {
    var r := ReplaceAll(scan, q, manifests);
    if p == [] {
      assert p + q == q;
      if r.Ok? {
        assert p + r.value == r.value;
      }
    } else {
      var p' := p[1..];
      NoMatchInTail(scan, p, q);
      ReplaceAllKeepsFirst(scan, p + q, manifests);
      ReplaceAllSkipsPrefix(scan, p', q, manifests);
      PrependTwice(p[0], p', r);
      assert [p[0]] + p' == p;
    }
  }

  lemma RewriteSkipsPrefix(p: string, q: string, manifests: Manifests)
    requires forall i :: 0 <= i < |p| ==> MatchAt((p + q)[i..]).None?
    ensures Rewrite(p + q, manifests) == Prepend(p, Rewrite(q, manifests))
  {
    MatchAtAdvances();
    ReplaceAllSkipsPrefix(MatchAt, p, q, manifests);
  }

  /** A text without quote characters is returned unchanged. */
  lemma RewriteQuoteFree(t: string, manifests: Manifests)
    requires QuoteFree(t)
    ensures Rewrite(t, manifests) == Ok(t)
  {
    forall i | 0 <= i < |t| ensures MatchAt((t + [])[i..]).None? {
      assert (t + [])[i..] == t[i..];
      QuoteFreeNeverMatches(t[i..]);
    }
    RewriteSkipsPrefix(t, [], manifests);
    assert t + [] == t;
  }

  lemma ChainAppend(head: Result<string, RewriteError>, rest: Result<string, RewriteError>, t: string)
    ensures Chain(head, Append(rest, t)) == Append(Chain(head, rest), t)
  {
    if head.Ok? && rest.Ok? {
      assert head.value + (rest.value + t) == (head.value + rest.value) + t;
    }
  }

  /** The scanner cannot tell a text from the same text followed by `t`. */
  ghost predicate BlindTo(scan: Scanner, t: string) {
    forall x: string :: scan(x + t) == scan(x)
  }

  /** The first step of the replacement does not see a blind tail. */
  lemma BlindTailStep(scan: Scanner, p: string, t: string, manifests: Manifests)
    requires Advances(scan) && BlindTo(scan, t) && p != []
    ensures ReplaceAll(scan, p + t, manifests) ==
      Chain(FirstPiece(scan, p, manifests), ReplaceAll(scan, p[Resume(scan, p)..] + t, manifests))
  {
    var k := Resume(scan, p);
    assert scan(p + t) == scan(p);
    assert (p + t)[0] == p[0];
    assert (p + t)[k..] == p[k..] + t;
    ReplaceAllStep(scan, p + t, manifests);
  }

  /** A tail the scanner cannot see, and which the replacement keeps as it
      is, is appended unchanged to the replacement of any text. */
  lemma {:induction false} ReplaceAllBlindTail(scan: Scanner, p: string, t: string, manifests: Manifests)
    requires Advances(scan) && BlindTo(scan, t) && ReplaceAll(scan, t, manifests) == Ok(t)
    ensures ReplaceAll(scan, p + t, manifests) == Append(ReplaceAll(scan, p, manifests), t)
    decreases |p|
  {
    if p == [] {
      assert p + t == t;
    } else {
      var k := Resume(scan, p);
      BlindTailStep(scan, p, t, manifests);
      ReplaceAllStep(scan, p, manifests);
      ReplaceAllBlindTail(scan, p[k..], t, manifests);
      ChainAppend(FirstPiece(scan, p, manifests), ReplaceAll(scan, p[k..], manifests), t);
    }
  }

  /** Text without quote characters appended to a source is appended
      unchanged to its rewrite: no match can reach into it. */
  lemma RewriteQuoteFreeSuffix(p: string, t: string, manifests: Manifests)
    requires QuoteFree(t)
    ensures Rewrite(p + t, manifests) == Append(Rewrite(p, manifests), t)
  {
    MatchAtAdvances();
    forall x: string ensures MatchAt(x + t) == MatchAt(x) {
      MatchAtQuoteFreeSuffix(x, t);
    }
    RewriteQuoteFree(t, manifests);
    ReplaceAllBlindTail(MatchAt, p, t, manifests);
  }

  /** A rewritten import is not matched again at its own `from`: its path
      starts with `/`. */
  lemma ReplacementNotRematched(dep: string, entry: Option<string>, rest: string)
    ensures MatchAt(Replacement(dep, entry) + rest).None?
  {
    var s := Replacement(dep, entry) + rest;
    assert s[..4] == "from" && IsSpace(s[4]) && IsQuote(s[5]) && s[6] == '/';
    RelativeNeverMatches(s, 1);
  }
}
