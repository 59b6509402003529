# toy-vite transform server, modelled in Dafny

This project models the core of `vite.js`, a development server that serves a
project's source files to the browser's native module loader without bundling.
The server rewrites each file when it is requested:

- **Import rewriter** (`rewriteImport`, with `getTargetDepModuleEntry` as its
  resolver). One regular expression, `from\s+['"]([^./].+)['"]`, is applied
  globally. Each match is replaced by `from "/node_modules/<dep>/<entry>"`,
  where `<entry>` is the `module` field of the dependency's `package.json`.
- **Main variant** of a single-file component (`.vue`). A module that imports
  the compiled render function from `<url>?type=template&d=<Date.now()>`. It
  carries the script with its first `export default` turned into
  `const __script = `, attaches the render function and re-exports the
  binding. The result goes through the rewriter again.
- **Request handler** (`app.get('*')`). It reads the file first, then serves
  `.js` files rewritten and `.vue` files as their Main variant (falsy `type`)
  or Template variant (`type === 'template'`). Every exception becomes a 404
  with an empty body.

Everything is pure. The external collaborators are parameters:
- the file read is an `Option<string>`;
- the installed manifests are a `map` from package name to the `module` field;
- the component parser and template compiler are functions that may fail;
- `Date.now()` is a natural-number token.

Files, one module each:
- `wrappers.dfy`: `Option`, `Result`.
- `js_text.dfy`: the ECMAScript primitives used. These are `\s`, line
  terminators, `endsWith`, `replace` with a string pattern, and the decimal
  rendering of an integer.
- `import_pattern.dfy`: a hand-written scanner for the import regex, and a
  declarative reading of it (`Accepts`).
- `import_rewriter.dfy`: the global replace and the resolver. `ReplaceAll` and
  `Split` are written for any scanner whose matches are non-empty and lie
  within the text. `Rewrite` and
  `Segments` instantiate them with the import scanner `MatchAt`.
- `component_module.dfy`: Main-variant synthesis and its behaviour under the
  rewriter.
- `server.dfy`: the handler's dispatch.

The model follows the code; in particular:
- The whole captured specifier is used as the package directory. `pkg/sub` is
  looked up as the package `pkg/sub`; no sub-path is split off.
- A manifest without a `module` field is not an error. `Array.join` renders
  `undefined` as the empty string, so the import becomes
  `from "/node_modules/<dep>/"`.
- `!query.type` is also true for an empty `type`, so `?type=` selects the Main
  variant.
- A `.vue` file without a script interpolates the literal `null`, not an empty
  object.
- A failure after `Content-Type` was set (an unresolved import, a parse or
  compile failure, a missing template) still sends that header with the 404.
- The component is parsed before `type` is looked at, so a `.vue` file that
  does not parse is a 404 (with the JavaScript content type) whatever `type` is.
- An extension other than `.js`/`.vue` ends no response at all (`Unanswered`);
  neither does a `.vue` file that parses when `type` is neither falsy nor
  `template`. Neither case is a 404.
- The greedy `.+` captures up to the last quote on the line. Two imports on
  one line are therefore captured as one specifier.

## Model

| member | source | states |
|---|---|---|
| `ImportPattern.Accepts` | vite.js:12 | The declarative reading of the pattern: `from`, at least one `\s`, a quote, a character other than `.` or `/`, at least one character that is not a line terminator, and a closing quote. It has no contract of its own; `MatchAt` ties the scanner to it. |
| `ImportPattern.MatchAt` | vite.js:12 | The scanner finds a match exactly when the pattern accepts a prefix. The whitespace count is then forced, the length is the longest accepted one (greedy `.+`), and the capture is the text between the quotes. |
| `ImportPattern.CapturedSpecifier` | vite.js:12 | A captured specifier has at least two characters and does not start with `.` or `/`. |
| `ImportPattern.MatchEndsAtLastQuoteOfLine` | vite.js:12 | The match ends at the last quote before the next line terminator. No quote lies between the match's end and that terminator. |
| `ImportPattern.RelativeNeverMatches` | vite.js:12 | `from`, whitespace and a quote followed by `.` or `/` is never a match. |
| `ImportPattern.MatchAtQuoteFreeSuffix` | vite.js:12 | Appending text without quotes does not change the match at a position. |
| `ImportPattern.QuoteFreeNeverMatches` | vite.js:12 | Text without quote characters holds no match. |
| `JsText.IsSpace` | vite.js:12 | `\s` of the pattern: on ASCII text, exactly the space and the controls from tab to carriage return (the contract). Beyond ASCII, the body lists the other ECMAScript white-space and line-terminator code points. Its uses are stated by `MatchAt` and `ComponentModule.ImportLineNeverMatches`. |
| `JsText.IsLineTerminator` | vite.js:12 | The characters `.` does not match; every one of them is also matched by `\s`. |
| `JsText.EndsWith` | vite.js:47-52 | `url.endsWith('.js')` and `url.endsWith('.vue')`. It has no contract of its own. Its use in the dispatch is stated by `Server.ExtensionsExclusive`, by `Server.Handle` (a body only for `.js` or `.vue`, `Unanswered` for any other extension), and by `Server.ScriptResponse`, `Server.MainVariantResponse` and `Server.TemplateVariantResponse`. |
| `JsText.ReplaceFirst` | vite.js:60 | `String.prototype.replace` with a string pattern. It has no contract of its own; `ReplaceFirstAbsent` and `ReplaceFirstAt` characterise it. |
| `JsText.ReplaceFirstAbsent` | vite.js:60 | `replace` with a string pattern leaves a string without an occurrence unchanged. |
| `JsText.ReplaceFirstAt` | vite.js:60 | `replace` with a string pattern replaces only the leftmost occurrence and keeps the text around it. |
| `JsText.Decimal` | vite.js:61 | The interpolated token is a non-empty string of digits whose decimal value is the token, with no leading zero. |
| `ImportRewriter.EntryPath` | vite.js:31 | `['/node_modules', dep, module].join('/')`, a missing `module` joined as the empty string. It has no contract of its own; `ReplacementText` spells out the text it produces. |
| `ImportRewriter.Replacement` | vite.js:31 | The callback's return value for a resolved specifier. `ReplacementText` spells it out as one string, and `ReplacementNotRematched` shows it is never matched again at its own `from`. |
| `ImportRewriter.ReplacementText` | vite.js:31 | The replacement is `from "/node_modules/` + dep + `/` + entry + `"`, with a missing entry rendered empty. |
| `ImportRewriter.ResolveImport` | vite.js:18-31 | The callback fails with `ManifestNotFound(dep)` exactly when the package has no manifest. Otherwise it yields `from "/node_modules/" + dep + "/" + entry + "\""`, with a missing entry rendered empty. |
| `ImportRewriter.ReplaceAll` | vite.js:29 | `replace` with a global pattern and the resolving callback, for any scanner whose matches are non-empty and lie within the text: a failed replacement names a specifier that has no manifest. `ReplaceAllBySplit` and `ReplaceAllFailsAtFirstUnresolved` characterise its result. |
| `ImportRewriter.Rewrite` | vite.js:28-32 | `rewriteImport`: `ReplaceAll` with the import scanner. A failed rewrite names a specifier that has no manifest. `RewriteBySegments` and `RewriteFailsAtFirstUnresolved` characterise its result. |
| `ImportRewriter.Split` | vite.js:29 | The engine's left-to-right, non-overlapping scan, without resolving anything. It has no contract of its own; `SplitCovers` and `SegmentAt` characterise it. |
| `ImportRewriter.Segments` | vite.js:29 | The import scan: `Split` with the import scanner `MatchAt`. It has no contract of its own; `SegmentsCover`, `SegmentsAreScan`, `SegmentsAreMatches`, `RewriteBySegments` and `RewriteFailsAtFirstUnresolved` characterise it. |
| `ImportRewriter.SplitCovers` | vite.js:29 | For any scanner whose matches are non-empty and lie within the text, the pieces of the scan put the text back together exactly, in order. |
| `ImportRewriter.SegmentsCover` | vite.js:29 | The pieces of the import scan put the text back together exactly, in order. |
| `ImportRewriter.SegmentAt` | vite.js:29 | For any scanner whose matches are non-empty and lie within the text, piece `i` starts where the pieces before it end. A verbatim piece is the character there, where the scanner finds no match; an import piece is the text the scanner's match there spans, with its whitespace count and capture. |
| `ImportRewriter.SegmentsAreScan` | vite.js:29 | The same for the import scanner: at every offset the scan reaches, a verbatim character stands exactly where `MatchAt` finds no match, and an import piece is exactly the match `MatchAt` finds there. |
| `ImportRewriter.SegmentsAreMatches` | vite.js:29 | Every piece the scan treats as an import is one whole match of the pattern, and its specifier is the text between the quotes. |
| `ImportRewriter.ReplaceAllBySplit` | vite.js:29-31 | For any scanner whose matches are non-empty and lie within the text, the replacement succeeds iff every captured specifier has a manifest. It then keeps all text outside matches verbatim and in order, and replaces each match by its import of the dependency's entry. |
| `ImportRewriter.RewriteBySegments` | vite.js:28-32 | The rewrite succeeds iff every captured specifier has a manifest. It then keeps all text outside matches verbatim and in order, and replaces each match by its import of the dependency's entry. |
| `ImportRewriter.ReplaceAllFailsAtFirstUnresolved` | vite.js:29-31 | For any scanner whose matches are non-empty and lie within the text, a failed replacement names the leftmost captured specifier that has no manifest. All specifiers before it resolve. |
| `ImportRewriter.RewriteFailsAtFirstUnresolved` | vite.js:28-32 | A failed rewrite names the leftmost captured specifier that has no manifest. All specifiers before it resolve. |
| `ImportRewriter.ReplaceAllSkipsPrefix` | vite.js:29 | For any scanner whose matches are non-empty and lie within the text, a prefix in which no match starts is copied unchanged in front of the replacement of the rest. |
| `ImportRewriter.RewriteSkipsPrefix` | vite.js:29 | A prefix in which no import match starts is copied unchanged in front of the rewrite of the rest. |
| `ImportRewriter.RewriteQuoteFree` | vite.js:29 | Text without quotes is returned unchanged. |
| `ImportRewriter.ReplaceAllBlindTail` | vite.js:29 | A tail that the scanner cannot see and that the replacement keeps as it is, is appended unchanged to the replacement of any text. |
| `ImportRewriter.RewriteQuoteFreeSuffix` | vite.js:29 | A quote-free suffix is appended unchanged to the rewrite of what precedes it, and cannot cause a failure. |
| `ImportRewriter.ReplacementNotRematched` | vite.js:31 | A rewritten import is not matched again at its own `from`, because its path starts with `/`. |
| `ComponentModule.ImportLine` | vite.js:61 | The first line of the Main variant. It has no contract of its own; `ImportLineNeverMatches` (for a pathname) and `ImportLineInjective` characterise it. |
| `ComponentModule.ScriptText` | vite.js:60 | `_script`: `null` without a script, otherwise the script content after `replace('export default', 'const __script = ')`. It has no contract of its own; `MainModuleLayout` spells out its three cases. |
| `ComponentModule.MainModule` | vite.js:60-64 | The Main variant's text. It has no contract of its own; `MainModuleLayout`, `MainModuleRewrite` and `MainModuleFresh` characterise it. |
| `ComponentModule.MainModuleLayout` | vite.js:60-64 | The Main variant opens with the import of `<url>?type=template&d=<token>` and a line break, and ends with the render hookup and `export default __script`. Between them stands `null` when there is no script, the script unchanged when it has no `export default`, and otherwise the script with only its first `export default` turned into `const __script = `. |
| `ComponentModule.EpilogueQuoteFree` | vite.js:63-64 | The two closing lines contain no quote. |
| `ComponentModule.ImportLineNeverMatches` | vite.js:61 | For a pathname that starts with `/` and has no whitespace, no match starts anywhere in the first line. |
| `ComponentModule.ScriptLinesRewrite` | vite.js:61-62 | The line break and indentation before the script are kept in front of the script's own rewrite, and cannot cause a failure. |
| `ComponentModule.MainModuleRewrite` | vite.js:60-65 | For a pathname (starts with `/`, no whitespace), rewriting the Main variant keeps its first line, the line break before the script and its closing lines verbatim, and puts the script's own rewrite between them. It fails iff the script's rewrite fails. |
| `ComponentModule.ImportLineInjective` | vite.js:61 | Different tokens give different import lines. |
| `ComponentModule.MainModuleFresh` | vite.js:61-64 | Different tokens give different Main variants. |
| `ComponentModule.RewrittenMainModuleFresh` | vite.js:61-65 | For a pathname, different tokens give different rewritten Main variants whenever the rewrite succeeds. |
| `Server.IsFalsy` | vite.js:59 | `!query.type`: a falsy value is never `'template'`, and an array or object from the query parser is always truthy. The dispatch on it is stated by `Server.ComponentBody` and `Server.Handle` (`Unanswered` exactly for a parsed component whose `type` is truthy and not `template`), `Server.MainVariantResponse` and `Server.TemplateVariantResponse`. |
| `Server.ExtensionsExclusive` | vite.js:47-52 | No path ends with both `.js` and `.vue`, so a `.vue` path never takes the `.js` branch. |
| `Server.TemplateVariant` | vite.js:66-69 | The Template variant succeeds exactly when the component has a template, the compiler accepts it and its output rewrites; an unresolved failure names a package without a manifest. |
| `Server.ComponentBody` | vite.js:52-70 | A component that does not parse fails. Nothing is written exactly when it parses and `type` is truthy and not `template`; an unresolved failure names a package without a manifest. |
| `Server.Reply` | vite.js:53-76 | Always the JavaScript content type. Status 200 with the body exactly on success; otherwise a 404 with an empty body. |
| `Server.Handle` | vite.js:40-78 | A missing file gives 404 with no content type, whatever the extension. A body is sent only with status 200 and `application/javascript`, for a `.js` or `.vue` path. Every other sent response is a 404 with an empty body. A `.vue` file that does not parse is a 404 with the JavaScript content type. No response is ended exactly for an unknown extension, or for a parsed `.vue` file whose `type` is truthy and not `template`. |
| `Server.ScriptResponse` | vite.js:47-51 | A `.js` path is answered with the rewritten file. If an import does not resolve, the answer is a 404 that keeps the JavaScript content type. |
| `Server.MainVariantResponse` | vite.js:52-65 | For a pathname (starts with `/`, no whitespace) ending in `.vue` with a falsy `type`: the import line for the Template variant, a line break and indentation, the script's own rewrite, then the render hookup and default export. If a script import does not resolve, a 404. |
| `Server.TemplateVariantResponse` | vite.js:66-76 | `type=template` gives a 404 when the component has no template or the compiler throws. Otherwise it gives the compiler output, rewritten. |
| `Server.MainVariantFresh` | vite.js:59-65 | For a pathname ending in `.vue` with a falsy `type`: two successful Main-variant responses served with different tokens differ. |

## Left out

- Express setup, the `/` route that serves `index.html`, `app.listen`, and the `chalk`/console logging (vite.js:1-4, 10, 35-38, 73-74, 80-82). These are process plumbing and I/O.
- `fs.readFileSync` and `.toString()`: the file is given as an optional string, and `None` stands for any read error.
- `path.resolve(root, '.' + url)`: path normalisation and traversal outside the project root are not modelled. The file content for a pathname is simply an input.
- `require(.../package.json)`: the manifests are a map from the captured specifier to the `module` field. A missing or unparsable `package.json` is an absent key. Node's module cache (a manifest read once per process) is not modelled. A non-string `module` value is represented by its string rendering.
- `compilerSFC.parse` and `compilerDOM.compile` are function parameters. Their own behaviour is not modelled, and a `None` result stands for a thrown exception. The `scriptSetup` block is parsed but, as in the source, never used.
- `Date.now()` is a natural-number parameter. Clocks and the monotonicity of tokens are not modelled.
- Strings are sequences of Unicode characters, not UTF-16 code units. An astral character counts as one character where JavaScript counts two. For the pattern this means two things. First, an import whose whole specifier is one astral character (`from '😀'`) matches in JavaScript, where `[^./]` takes the high surrogate and `.+` the low one, but `MatchAt` finds no match there. Second, `CapturedSpecifier`'s "at least two characters" counts code points, while JavaScript guarantees two code units.
- Headers set on a response that is never ended (`Unanswered`) are not recorded.
