/** The Main variant of a single-file component: a module that imports the
    compiled render function from the Template variant of the same path,
    carries the component's script with its default export turned into a
    local binding, attaches the render function to that binding and
    exports it. The freshness token stands for `Date.now()`. */
module ComponentModule {
  import opened Wrappers
  import opened JsText
  import opened ImportPattern
  import opened ImportRewriter

  datatype Section = Section(content: string)

  /** What the component parser returns: each block may be missing. */
  datatype Descriptor = Descriptor(script: Option<Section>, scriptSetup: Option<Section>, template: Option<Section>)

  const ImportOpening := "import { render as _render } from '"
  const TemplateQuery := "?type=template&d="
  const Indent := "\n          "
  const RenderHookup := "__script.render = _render"
  const DefaultExport := "export default __script"
  const ExportDefault := "export default"
  const LocalBinding := "const __script = "

  /** A request pathname: it starts with `/` and holds no whitespace. */
  predicate IsPathname(url: string) {
    |url| >= 1 && url[0] == '/' && forall k :: 0 <= k < |url| ==> !IsSpace(url[k])
  }

  /** The path the Main variant imports its render function from. */
  function TemplateImportPath(url: string, token: nat): string {
    url + TemplateQuery + Decimal(token)
  }

  /** The first line of the Main variant. */
  function ImportLine(url: string, token: nat): string {
    ImportOpening + TemplateImportPath(url, token) + "'"
  }

  /** `script ? script.content.replace('export default', 'const __script = ') : null`
      as interpolated into the template literal. */
  function ScriptText(script: Option<Section>): string {
    if script.Some? then ReplaceFirst(script.value.content, ExportDefault, LocalBinding) else "null"
  }

  /** The last two lines of the Main variant. */
  function Epilogue(): string {
    Indent + RenderHookup + Indent + DefaultExport
  }

  /** The line break and indentation, then the script as interpolated. */
  function ScriptLines(script: Option<Section>): string {
    Indent + ScriptText(script)
  }

  /** The Main variant before its imports are rewritten. */
  function MainModule(url: string, token: nat, script: Option<Section>): string {
    ImportLine(url, token) + (ScriptLines(script) + Epilogue())
  }

  /** Where the script text stands in the Main variant. */
  lemma MainModuleSlices(url: string, token: nat, script: Option<Section>)
    ensures var m := MainModule(url, token, script);
      var a := |ImportLine(url, token)| + |Indent|;
      var b := |m| - |Epilogue()|;
      a <= b && m[..a] == ImportLine(url, token) + Indent && m[b..] == Epilogue()
      && m[a..b] == ScriptText(script)
  {
    var m := MainModule(url, token, script);
    assert m == (ImportLine(url, token) + Indent) + ScriptText(script) + Epilogue();
  }

  /** The Main variant opens with the import of the Template variant of the
      same path and ends by attaching the render function and exporting the
      binding. In between, after a line break, stands `null` when there is
      no script, the script unchanged when it has no `export default`, and
      otherwise the script with only its first `export default` turned into
      `const __script = `. */
  lemma MainModuleLayout(url: string, token: nat, script: Option<Section>)
    ensures var m := MainModule(url, token, script);
      var a := |ImportLine(url, token)| + |Indent|;
      var b := |m| - |Epilogue()|;
      a <= b && m[..a] == ImportLine(url, token) + Indent && m[b..] == Epilogue()
      && (script.None? ==> m[a..b] == "null")
      && (script.Some? && Absent(script.value.content, ExportDefault) ==> m[a..b] == script.value.content)
      && (forall i: nat :: script.Some? && IsFirstOccurrence(script.value.content, ExportDefault, i) ==>
            m[a..b] == script.value.content[..i] + LocalBinding + script.value.content[i + |ExportDefault|..])
  {
    MainModuleSlices(url, token, script);
    if script.Some? {
      var c := script.value.content;
      if Absent(c, ExportDefault) {
        ReplaceFirstAbsent(c, ExportDefault, LocalBinding);
      }
      forall i: nat | IsFirstOccurrence(c, ExportDefault, i)
        ensures ScriptText(script) == c[..i] + LocalBinding + c[i + |ExportDefault|..]
      {
        ReplaceFirstAt(c, ExportDefault, LocalBinding, i);
      }
    }
  }

  /** The closing lines hold no quote character. */
  lemma EpilogueQuoteFree()
    ensures QuoteFree(Epilogue())
  {
    assert QuoteFree(Indent);
    assert QuoteFree(RenderHookup);
    assert QuoteFree(DefaultExport);
  }

  lemma OpeningLetters()
    ensures forall k :: 0 <= k < |ImportOpening| && ImportOpening[k] == 'f' ==> k == 29
  {
  }

  lemma QueryLetters()
    ensures forall k :: 0 <= k < |TemplateQuery| ==> TemplateQuery[k] != 'f' && !IsSpace(TemplateQuery[k])
  {
  }

  /** The character at position `k` of the first line, region by region. */
  function ImportLineChar(url: string, digits: string, k: nat): char {
    var a := |ImportOpening|;
    var b := a + |url|;
    var d := b + |TemplateQuery|;
    if k < a then ImportOpening[k]
    else if k < b then url[k - a]
    else if k < d then TemplateQuery[k - b]
    else if k < d + |digits| then digits[k - d]
    else '\''
  }

  lemma ImportLineCharAt(url: string, token: nat, rest: string, k: nat)
    requires k < |ImportLine(url, token)|
    ensures |ImportLine(url, token)| == |ImportOpening| + |url| + |TemplateQuery| + |Decimal(token)| + 1
    ensures (ImportLine(url, token) + rest)[k] == ImportLineChar(url, Decimal(token), k)
  {
  }

  /** No match starts where the text does not start with `f`. */
  lemma NoMatchWithoutF(x: string)
    requires x == [] || x[0] != 'f'
    ensures MatchAt(x).None?
  {
    MatchNeeds(x);
  }

  /** No match starts where the fifth character is not whitespace. */
  lemma NoMatchWithoutSpace(x: string)
    requires |x| > 4 ==> !IsSpace(x[4])
    ensures MatchAt(x).None?
  {
    MatchNeeds(x);
  }

  /** The `from` of the import line is followed by a path that starts with
      `/`, so it is not a match. */
  lemma ImportFromNeverMatches(url: string, token: nat, rest: string)
    requires IsPathname(url)
    ensures MatchAt((ImportLine(url, token) + rest)[29..]).None?
  {
    var x := (ImportLine(url, token) + rest)[29..];
    forall j | 0 <= j < 7 ensures x[j] == ImportLineChar(url, Decimal(token), 29 + j) {
      ImportLineCharAt(url, token, rest, 29 + j);
    }
    assert x[..4] == "from" by {
      assert x[0] == 'f' && x[1] == 'r' && x[2] == 'o' && x[3] == 'm';
    }
    assert x[4] == ' ' && x[5] == '\'' && x[6] == url[0];
    RelativeNeverMatches(x, 1);
  }

  /** No match starts at position `i` of the first line: the `from` of the
      import is followed by a path that starts with `/`, and no other
      position holds an `f` followed four characters on by whitespace. */
  lemma ImportLineNoMatchAt(url: string, token: nat, rest: string, i: nat)
    requires IsPathname(url) && i < |ImportLine(url, token)|
    ensures MatchAt((ImportLine(url, token) + rest)[i..]).None?
  {
    var s := ImportLine(url, token) + rest;
    var a := |ImportOpening|;
    var b := a + |url|;
    var d := b + |TemplateQuery|;
    var digits := Decimal(token);
    var x := s[i..];
    ImportLineCharAt(url, token, rest, i);
    if i == 29 {
      ImportFromNeverMatches(url, token, rest);
    } else if i < a {
      OpeningLetters();
      NoMatchWithoutF(x);
    } else if i < b {
      QueryLetters();
      if i + 4 < |s| {
        ImportLineCharAt(url, token, rest, i + 4);
        assert x[4] == ImportLineChar(url, digits, i + 4);
      }
      NoMatchWithoutSpace(x);
    } else if i < d {
      QueryLetters();
      NoMatchWithoutF(x);
    } else if i < d + |digits| {
      assert IsDigit(x[0]);
      NoMatchWithoutF(x);
    } else {
      NoMatchWithoutF(x);
    }
  }

  /** No match of the bare-import pattern starts inside the first line: its
      `from` is followed by a path that starts with `/`, and no other `from`
      in it is followed by whitespace. */
  lemma ImportLineNeverMatches(url: string, token: nat, rest: string)
    requires IsPathname(url)
    ensures forall i :: 0 <= i < |ImportLine(url, token)| ==> MatchAt((ImportLine(url, token) + rest)[i..]).None?
  {
    forall i | 0 <= i < |ImportLine(url, token)| ensures MatchAt((ImportLine(url, token) + rest)[i..]).None? {
      ImportLineNoMatchAt(url, token, rest, i);
    }
  }

  /** The line break and indentation in front of the script hold no `f`,
      so they are kept in front of the script's own rewrite. */
  lemma ScriptLinesRewrite(script: Option<Section>, manifests: Manifests)
    ensures Rewrite(ScriptLines(script), manifests) == Prepend(Indent, Rewrite(ScriptText(script), manifests))
  {
    var text := ScriptText(script);
    forall i | 0 <= i < |Indent| ensures MatchAt((Indent + text)[i..]).None? {
      assert (Indent + text)[i..][0] == Indent[i];
      NoMatchWithoutF((Indent + text)[i..]);
    }
    RewriteSkipsPrefix(Indent, text, manifests);
  }

  /** Rewriting the Main variant leaves its first line, the line break
      before the script and its closing lines as they are and rewrites only
      the script; it fails exactly when the script's rewrite fails. */
  lemma MainModuleRewrite(url: string, token: nat, script: Option<Section>, manifests: Manifests)
    requires IsPathname(url)
    ensures Rewrite(MainModule(url, token, script), manifests) ==
      match Rewrite(ScriptText(script), manifests)
      case Ok(body) => Ok(ImportLine(url, token) + (Indent + body + Epilogue()))
      case Err(e) => Err(e)
  {
    var line := ImportLine(url, token);
    var middle := ScriptLines(script);
    var tail := middle + Epilogue();
    ImportLineNeverMatches(url, token, tail);
    RewriteSkipsPrefix(line, tail, manifests);
    EpilogueQuoteFree();
    RewriteQuoteFreeSuffix(middle, Epilogue(), manifests);
    ScriptLinesRewrite(script, manifests);
  }

  /** Different tokens give different first lines. */
  lemma ImportLineInjective(url: string, t1: nat, t2: nat)
    requires t1 != t2
    ensures ImportLine(url, t1) != ImportLine(url, t2)
  {
    var l1, l2 := ImportLine(url, t1), ImportLine(url, t2);
    if |l1| == |l2| {
      var p := |ImportOpening + url + TemplateQuery|;
      assert l1[p..|l1| - 1] == Decimal(t1);
      assert l2[p..|l2| - 1] == Decimal(t2);
    }
  }

  /** Different tokens give different Main variants: each fetch imports a
      Template variant under a new path. */
  lemma MainModuleFresh(url: string, t1: nat, t2: nat, script: Option<Section>)
    requires t1 != t2
    ensures MainModule(url, t1, script) != MainModule(url, t2, script)
  {
    ImportLineInjective(url, t1, t2);
    SuffixCancels(ImportLine(url, t1), ImportLine(url, t2), ScriptLines(script) + Epilogue());
  }

  /** The same holds after the rewrite, whenever it succeeds. */
  lemma RewrittenMainModuleFresh(url: string, t1: nat, t2: nat, script: Option<Section>, manifests: Manifests)
    requires IsPathname(url) && t1 != t2
    requires Rewrite(MainModule(url, t1, script), manifests).Ok?
    ensures Rewrite(MainModule(url, t1, script), manifests) != Rewrite(MainModule(url, t2, script), manifests)
  {
    MainModuleRewrite(url, t1, script, manifests);
    MainModuleRewrite(url, t2, script, manifests);
    var body := Rewrite(ScriptText(script), manifests).value;
    ImportLineInjective(url, t1, t2);
    SuffixCancels(ImportLine(url, t1), ImportLine(url, t2), Indent + body + Epilogue());
  }

  lemma SuffixCancels(x: string, y: string, z: string)
    requires x != y
    ensures x + z != y + z
  {
    if |x| == |y| {
      assert (x + z)[..|x|] == x && (y + z)[..|y|] == y;
    } else {
      assert |x + z| != |y + z|;
    }
  }
}
