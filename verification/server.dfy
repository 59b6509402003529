/** The catch-all GET handler: it reads the requested file, then serves a
    `.js` file with its bare imports rewritten, and a `.vue` component as its
    Main or Template variant depending on the `type` query value. Every
    exception on the way becomes a 404 with an empty body. The file system,
    the installed manifests, the component parser, the template compiler
    and the clock are parameters. */
module Server {
  import opened Wrappers
  import opened JsText
  import opened ImportRewriter
  import opened ComponentModule

  /** `req.query.type`: missing, one string, or something else the query
      parser builds (an array for a repeated key, an object for `type[x]=`),
      which is truthy and never equal to a string. */
  datatype TypeQuery = Missing | Single(value: string) | Structured

  /** `!query.type`: a missing value or the empty string. A falsy value is
      never `'template'`, and a structured value is always truthy. */
  predicate IsFalsy(t: TypeQuery)
    ensures IsFalsy(t) ==> t != Single("template")
    ensures t.Structured? ==> !IsFalsy(t)
  {
    t.Missing? || t == Single("")
  }

  /** `url.endsWith('.js')` and `url.endsWith('.vue')` never hold together,
      so the order of the two tests does not matter. */
  lemma ExtensionsExclusive(url: string)
    ensures !(EndsWith(url, ".js") && EndsWith(url, ".vue"))
  {
    if EndsWith(url, ".vue") {
      assert url[|url| - 1] == 'e';
    }
  }

  /** What the handler does with the response: it is either ended with a
      status, maybe a content type, and a body, or never ended at all. */
  datatype Response = Sent(status: nat, contentType: Option<string>, body: string) | Unanswered

  /** The exceptions the handler catches. */
  datatype Failure =
    | FileUnreadable
    | ParseFailed
    | MissingTemplate
    | CompileFailed
    | Unresolved(specifier: string)

  const JavaScript := "application/javascript"

  function FromRewrite(r: Result<string, RewriteError>): Result<string, Failure> {
    match r
    case Ok(text) => Ok(text)
    case Err(ManifestNotFound(dep)) => Err(Unresolved(dep))
  }

  /** The Template variant: `template.content` throws when the component has
      no template, the compiler may throw, and its output is rewritten. */
  function TemplateVariant(d: Descriptor, compile: string -> Option<string>, manifests: Manifests): (r: Result<string, Failure>)
    ensures r.Ok? <==>
      d.template.Some? && compile(d.template.value.content).Some?
      && Rewrite(compile(d.template.value.content).value, manifests).Ok?
    ensures r.Err? && r.error.Unresolved? ==> r.error.specifier !in manifests
  {
    match d.template
    case None => Err(MissingTemplate)
    case Some(t) =>
      match compile(t.content)
      case None => Err(CompileFailed)
      case Some(code) => FromRewrite(Rewrite(code, manifests))
  }

  /** The `.vue` branch after the file was read: the component is parsed
      first, then a falsy `type` selects the Main variant and only
      `type === 'template'` the Template variant; any other value writes
      nothing (`None`). */
  function ComponentBody(url: string, typeQuery: TypeQuery, content: string, token: nat, manifests: Manifests,
                         parse: string -> Option<Descriptor>, compile: string -> Option<string>): (r: Option<Result<string, Failure>>)
    ensures parse(content).None? ==> r == Some(Err(ParseFailed))
    ensures r.None? <==> parse(content).Some? && !IsFalsy(typeQuery) && typeQuery != Single("template")
    ensures r.Some? && r.value.Err? && r.value.error.Unresolved? ==> r.value.error.specifier !in manifests
  {
    match parse(content)
    case None => Some(Err(ParseFailed))
    case Some(d) =>
      if IsFalsy(typeQuery) then Some(FromRewrite(Rewrite(MainModule(url, token, d.script), manifests)))
      else if typeQuery == Single("template") then Some(TemplateVariant(d, compile, manifests))
      else None
  }

  /** The response once `Content-Type: application/javascript` is set: the
      body on success, otherwise a 404 that keeps the header. */
  function Reply(result: Result<string, Failure>): (r: Response)
    ensures r.Sent? && r.contentType == Some(JavaScript)
    ensures r.status == 200 <==> result.Ok?
    ensures result.Ok? ==> r.body == result.value
    ensures result.Err? ==> r.status == 404 && r.body == []
  {
    match result
    case Ok(body) => Sent(200, Some(JavaScript), body)
    case Err(_) => Sent(404, Some(JavaScript), [])
  }

  /** The `app.get('*')` handler. `file` is the file under the project root
      named by the pathname (`None` when reading it throws), `token` the
      value of `Date.now()`. */
  function Handle(url: string, typeQuery: TypeQuery, file: Option<string>, token: nat, manifests: Manifests,
                  parse: string -> Option<Descriptor>, compile: string -> Option<string>): (r: Response)
    ensures file.None? ==> r == Sent(404, None, [])
    ensures r.Sent? ==>
      (r.status == 200 && r.contentType == Some(JavaScript)) || (r.status == 404 && r.body == [])
    ensures r.Sent? && r.status == 200 ==> file.Some? && (EndsWith(url, ".js") || EndsWith(url, ".vue"))
    ensures r.Unanswered? <==>
      file.Some? && !EndsWith(url, ".js")
      && (!EndsWith(url, ".vue")
          || (parse(file.value).Some? && !IsFalsy(typeQuery) && typeQuery != Single("template")))
    ensures file.Some? && !EndsWith(url, ".js") && EndsWith(url, ".vue") && parse(file.value).None? ==>
      r == Sent(404, Some(JavaScript), [])
  {
    match file
    case None => Sent(404, None, [])
    case Some(content) =>
      if EndsWith(url, ".js") then
        Reply(FromRewrite(Rewrite(content, manifests)))
      else if EndsWith(url, ".vue") then
        match ComponentBody(url, typeQuery, content, token, manifests, parse, compile)
        case None => Unanswered
        case Some(result) => Reply(result)
      else
        Unanswered
  }

  /** A `.js` file is served with its imports rewritten, or answered with a
      404 when one of them cannot be resolved. */
  lemma ScriptResponse(url: string, typeQuery: TypeQuery, content: string, token: nat, manifests: Manifests,
                       parse: string -> Option<Descriptor>, compile: string -> Option<string>)
    requires EndsWith(url, ".js")
    ensures Handle(url, typeQuery, Some(content), token, manifests, parse, compile) ==
      if Rewrite(content, manifests).Ok? then Sent(200, Some(JavaScript), Rewrite(content, manifests).value)
      else Sent(404, Some(JavaScript), [])
  {
  }

  /** A `.vue` request with a falsy `type` is served the Main variant: the
      import of the Template variant first, a line break, the script
      rewritten, then the render hookup and the default export; it is a 404
      exactly when a bare import of the script cannot be resolved. */
  lemma MainVariantResponse(url: string, typeQuery: TypeQuery, content: string, token: nat, manifests: Manifests,
                            parse: string -> Option<Descriptor>, compile: string -> Option<string>)
    requires IsPathname(url) && EndsWith(url, ".vue") && IsFalsy(typeQuery) && parse(content).Some?
    ensures Handle(url, typeQuery, Some(content), token, manifests, parse, compile) ==
      match Rewrite(ScriptText(parse(content).value.script), manifests)
      case Ok(body) => Sent(200, Some(JavaScript), ImportLine(url, token) + (Indent + body + Epilogue()))
      case Err(_) => Sent(404, Some(JavaScript), [])
  {
    ExtensionsExclusive(url);
    MainModuleRewrite(url, token, parse(content).value.script, manifests);
  }

  /** A `.vue` request with `type=template` is a 404 when the component has
      no template or the compiler throws, and otherwise the compiler's
      output with its imports rewritten. */
  lemma TemplateVariantResponse(url: string, content: string, token: nat, manifests: Manifests,
                                parse: string -> Option<Descriptor>, compile: string -> Option<string>)
    requires EndsWith(url, ".vue") && parse(content).Some?
    ensures var d := parse(content).value;
      Handle(url, Single("template"), Some(content), token, manifests, parse, compile) ==
      if d.template.None? || compile(d.template.value.content).None? then Sent(404, Some(JavaScript), [])
      else if Rewrite(compile(d.template.value.content).value, manifests).Ok? then
        Sent(200, Some(JavaScript), Rewrite(compile(d.template.value.content).value, manifests).value)
      else Sent(404, Some(JavaScript), [])
  {
    ExtensionsExclusive(url);
  }

  /** Two Main-variant responses served with different tokens differ. */
  lemma MainVariantFresh(url: string, typeQuery: TypeQuery, content: string, t1: nat, t2: nat, manifests: Manifests,
                         parse: string -> Option<Descriptor>, compile: string -> Option<string>)
    requires IsPathname(url) && EndsWith(url, ".vue") && IsFalsy(typeQuery) && t1 != t2
    requires Handle(url, typeQuery, Some(content), t1, manifests, parse, compile).Sent?
    requires Handle(url, typeQuery, Some(content), t1, manifests, parse, compile).status == 200
    ensures Handle(url, typeQuery, Some(content), t1, manifests, parse, compile)
         != Handle(url, typeQuery, Some(content), t2, manifests, parse, compile)
  {
    ExtensionsExclusive(url);
    var script := parse(content).value.script;
    RewrittenMainModuleFresh(url, t1, t2, script, manifests);
  }
}
