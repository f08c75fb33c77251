# gte request resolution and configuration, modelled in Dafny

gte serves a project directory over HTTP. Static files and Go templates are
served through configurable routes, with locale-aware file selection and
content negotiation (webp and pre-compressed gzip siblings, on-the-fly gzip
for rendered pages). This project models two parts of gte and proves
properties of them:

- **The request handler** (`server/server.go`), in `server.dfy`, module `Server`.
  - `Server.NewServer` rejects route tables in which two routes share a
    parameterised shape.
  - `AddPrehandler` registers pre-handlers.
  - `ServeHTTP` turns one request into an `Outcome`. The steps run in this
    order: pre-handlers, the black lists, the identity target (`/` becomes
    `/index.html`), the locale-suffixed sibling probe, last-match-wins
    routing on the original path, and then either the static negotiation
    (webp, then `.gzip`, then raw) or the template branch.
  - The method works step by step, as the Go code does. It is proved equal
    to the function `Resolve`, and the lemmas state what `Resolve` promises.
- **Configuration loading and route helpers** (`config/config.go`), in
  `config.dfy`, module `Config`.
  - `LoadConfig` starts from the defaults. It then applies the decoded
    descriptor, applies the named environment override, checks the locale
    directory and loads the locale tables, stopping at the first error. It is
    proved equal to the function `Load`.
  - `Route.Params` extracts parameters segment by segment.
  - `Route.ParamPrefix` returns the prefix before the first `/:`.
- `text.dfy` (module `Text`) models the Go library functions the core relies
  on: `strings.Index`, `Contains`, `HasPrefix`, `HasSuffix`, `TrimSuffix` and
  `Split`, and `filepath.Ext`.
- `results.dfy` (module `Results`) holds `Option` and `Result`.

Collaborators whose code is not part of this model are parameters:

- the `util.*` helpers: `MatchRoute`, `FormatParam`, `ShouldGZip`,
  `ShouldCWebp`, `ReplaceFieldIND`, `LoadJsonLangFile`, `LANG_FILE_EXT`,
  `GetLang` and `GetLangShort`;
- `strToolkit.TrimStart` and `strToolkit.TrimEnd`;
- `language.Parse`, as a validity test;
- `mime.TypeByExtension`;
- `filepath.Join`;
- `url.PathUnescape(filepath.Base(·))`.

These live in the `Server.Helpers` and `Config.ConfigHelpers` records. The
locale tags are fields of `Server.Request`.

The file system is modelled as data:

- for the handler, a set of existing paths;
- for the loader, a map from directory to its listing.

The descriptor arrives already decoded, as a `Config.ConfigSource`: missing,
unreadable, malformed, or the keys it contains. Template parsing and execution
arrive as a `Server.Templates` value.

The request branch is chosen by the extension of the request's own target
(after `/` becomes `/index.html`), before the route table rewrites it. So a
route from `/about` to `about.html` serves `about.html` as a raw file rather
than rendering it. `Server.BranchFollowsRequestExtension` states this, as
written.

The environment override calls `util.ReplaceFieldIND`, whose code is not
part of this model. One reading of `ReplaceFieldIND` is field-by-field
replacement, in which a zero field wipes the base value; its name suggests
"replace if not default", which keeps it. The model keeps the merge abstract.

## Model

| member | source | states |
|---|---|---|
| `Text.IndexOf` | config/config.go:149 | strings.Index: the result is the first index where the substring occurs, or -1 exactly when it occurs nowhere |
| `Text.Contains` | server/server.go:108 | the header tests are plain substring tests: true exactly when the substring occurs somewhere |
| `Text.TrimSuffix` | server/server.go:89 | removing a present suffix leaves what the suffix completes back to the string; an absent suffix leaves the string unchanged |
| `Text.Split` | config/config.go:129-130 | strings.Split on "/" yields at least one piece |
| `Text.SplitPiecesFree` | config/config.go:129-130 | no piece of a split contains the separator |
| `Text.JoinSplit` | config/config.go:129-130 | joining the pieces of a split with the separator gives back the original string |
| `Text.SplitJoin` | config/config.go:129-130 | splitting a join of separator-free pieces gives back the pieces |
| `Text.Ext` | server/server.go:88 | filepath.Ext: a suffix of the path that is empty or starts with the last dot of the last element and holds no later dot or slash; empty exactly when the last element has no dot |
| `Config.Route.Params` | config/config.go:128-146 | the extracted map is the positional binding of the pattern's `:name` segments to the URI's segments, up to the shorter segment list, skipping empty and literal segments |
| `Config.ParamMapKeys` | config/config.go:132-143 | a name is bound exactly when some parameter segment before the cut-off carries it |
| `Config.ParamMapValue` | config/config.go:140-143 | a name is bound to the URI segment under the last parameter segment carrying it |
| `Config.ParamsOfUserPost` | config/config.go:128-146 | `/users/:id/posts/:postId` against `/users/42/posts/7` gives `{id: "42", postId: "7"}` |
| `Config.Route.ParamPrefix` | config/config.go:148-154 | when the path contains "/:", the result is the prefix before its first occurrence, with no earlier occurrence inside it; otherwise ("", false) |
| `Config.Overlay` | config/config.go:68 | decoding the descriptor cannot change root, env, the internal black list or the locale tables; an empty descriptor changes nothing |
| `Config.LoadLangFilesError` | config/config.go:101-117 | locale loading fails exactly when some resource file has an invalid tag or unreadable content; the error is that of the first such file and names it |
| `Config.LoadLangFilesKeys` | config/config.go:101-118 | after a successful load the tables are keyed by exactly the trimmed names of the files ending in the resource extension |
| `Config.LoadLangFilesValue` | config/config.go:101-118 | after a successful load the table under an entry's tag is the decoded content of that entry's file, unless a later entry has the same tag |
| `Config.LoadLangFilesStops` | config/config.go:106-117 | once a file has failed, later directory entries change neither the tables nor the error |
| `Config.LoadLangTables` | config/config.go:95-119 | the loop over the directory entries returns the tables and first error of LoadLangFiles |
| `Config.LoadConfig` | config/config.go:46-126 | the step-by-step loader returns exactly the configuration and error of Load |
| `Config.LoadWithoutDescriptor` | config/config.go:47-63 | with no descriptor file: no error; host 0.0.0.0, the given port, root and env, internal black list ["/gte.config.json"], API server http://localhost; routes, black list, not-found page, environments, locale setup and tables all empty |
| `Config.MalformedDescriptorFails` | config/config.go:68-72 | a descriptor the decoder rejects is reported as an error |
| `Config.UnknownEnvironmentFails` | config/config.go:75-79 | naming an environment that `envs` does not declare gives "No environment named '<env>'" |
| `Config.OverrideNeedsNamedEnvironment` | config/config.go:75-84 | when `envs` is nil or no environment is named, the result does not depend on the override merge |
| `Config.LangDirNeedsDefault` | config/config.go:87-90 | a locale directory without a default locale is an error |
| `Config.LangDirMustExist` | config/config.go:91-94 | a locale directory that does not exist is an error naming the joined path |
| `Config.DefaultTableRequired` | config/config.go:101-123 | once every locale file loads, loading succeeds exactly when key-as-value is on or some resource file's trimmed name is the default tag |
| `Config.LoadedLocaleInvariant` | config/config.go:86-125 | a configuration loaded without error that names a locale directory has a default tag, an existing directory, and a default table unless key-as-value is on |
| `Server.FirstSeenShapes` | server/server.go:48-56 | the `checked` map holds exactly the shapes of the routes seen so far |
| `Server.FirstSeenFirst` | server/server.go:48-56 | the `checked` map records, for each shape, the path of the first route of that shape |
| `Server.DuplicateRouteErrorMeaning` | server/server.go:48-56 | the table is rejected exactly when two routes share a shape |
| `Server.DuplicateRouteErrorNames` | server/server.go:51-53 | a rejection names the first route repeating a shape (no duplicate before it) and the first route that had that shape |
| `Server.DuplicateStops` | server/server.go:51-54 | after the first duplicate, later routes do not change the error |
| `Server.CheckRoutes` | server/server.go:47-56 | the duplicate-route loop returns DuplicateRouteError, which is None exactly when no two routes share a shape |
| `Server.Server.NewServer` | server/server.go:32-60 | fails exactly when two routes share a shape, with that error; otherwise a fresh server over the configuration with no pre-handlers |
| `Server.Server.constructor` | server/server.go:33-36 | a server holds the given configuration and starts with no pre-handlers |
| `Server.Server.AddPrehandler` | server/server.go:199-201 | the pre-handler is appended after those already registered |
| `Server.FirstInterrupt` | server/server.go:63-69 | the index returned is of a pre-handler that answers, with none before it answering; None exactly when none answers |
| `Server.LastMatch` | server/server.go:96-101 | the index returned is of a matching route with no later route matching; None exactly when no route matches |
| `Server.PrehandlersRunInOrder` | server/server.go:63-69 | handling ends at pre-handler k exactly when k answers and no earlier one does |
| `Server.BlacklistedPathIsNotFound` | server/server.go:71-77 | a path equal to an entry of the black list or the internal black list is not found, whatever the routes, files and templates |
| `Server.RouteSelection` | server/server.go:79-101 | the last declared route matching the original path gives path and target, whatever the locale probe found; with no match the request keeps its path and the probed identity target |
| `Server.LocaleProbeOrder` | server/server.go:87-94 | the short-tag sibling is taken if it exists, else the full-tag sibling if it exists, else the target is unchanged |
| `Server.LocaleSiblingKeepsExt` | server/server.go:88-93 | a locale sibling keeps the target's extension for any tag without a dot |
| `Server.BranchFollowsRequestExtension` | server/server.go:88-131 | outside `.html` (by the pre-route extension) a file is always served; for `.html` the outcome is a rendered page, not found or an internal error |
| `Server.StaticNegotiation` | server/server.go:111-130 | an eligible, accepted, existing webp sibling is served and gzip is never tried; else an eligible, accepted, existing `.gzip` sibling with gzip encoding and the extension's type; else the file itself |
| `Server.HtmlRendering` | server/server.go:105-180 | a template parse failure is an internal error with its message and no template set is not found; an execution error containing "is undefined" is not found, any other an internal error with its message; otherwise the page is text/html, uncompressed without "gzip" in Accept-Encoding, and with it either compressed under the unescaped base name or an internal error when that name does not unescape |
| `Server.RootRendersIndex` | server/server.go:79-178 | `/` accepting gzip, with no route, renders `/index.html` as text/html compressed on the fly |
| `Server.WebpLogoServed` | server/server.go:79-117 | `/img/logo.png` accepting webp with `logo.png.webp` on disk serves that file with no gzip negotiation |
| `Server.Server.RouteRequest` | server/server.go:79-101 | the identity, locale and route steps give ResolveRoute and the pre-route extension |
| `Server.Server.LocaleRoute` | server/server.go:79-94 | the identity route, with `/` read as `/index.html` and the target moved to the locale sibling LocaleTarget picks |
| `Server.Server.MatchRoutes` | server/server.go:96-101 | the loop over the declared routes leaves the last matching route, or the identity route when none matches |
| `Server.Server.ServeStaticFile` | server/server.go:111-130 | the static branch gives the webp/gzip/raw choice of ServeStatic |
| `Server.Server.RenderPage` | server/server.go:133-180 | the template branch gives the parse/execute/gzip outcome of RenderHtml |
| `Server.Server.ServeHTTP` | server/server.go:62-181 | the handler's outcome is Resolve of the configuration, the pre-handlers in order, the request, the files and the templates |

## Left out

- Listening and shutdown (`ListenAndServe`, `Stop` with its one-second grace period): socket lifecycle and concurrency.
- Template parsing and execution, and the template helpers `httpGet`, `httpGetJson`, `httpPostJson`, `mapOf`, `unescape`, `startsWith`, `endsWith` and `NewContext`. These are a foreign engine and network I/O. Only their results enter the model, as a `Templates` value.
- Writing the gzip stream and the page body (`io.Copy`, `w.Write`), and the I/O error of `io.Copy`. A rendered page is the outcome `RenderTemplate`, carrying the stream name.
- Server.Server.ServeHTTP: `http.ServeFile`'s own behaviour (not found for a missing file, directory listings, index redirects) is not modelled; a served file is the outcome `ServeFile`.
- Server.Server.ServeHTTP: the outcome does not record that `Content-Type` and `Content-Encoding` were already set when a template error follows.
- Pre-handlers are pure tests of the request. What they write to the response is not modelled.
- JSON decoding of the descriptor and of the locale files. The decoded keys, or the decoder's error, are inputs.
- Config.LoadConfig: a malformed descriptor leaves the defaults in place. Go's decoder can assign some fields before it reports a type error; that partial assignment is not modelled.
- The bodies of the `util.*` and `strToolkit.*` helpers, `language.Parse` (BCP 47 tag validity), `mime.TypeByExtension`, `filepath.Join` and `url.PathUnescape`. These are parameters, so no property depends on the override semantics of `ReplaceFieldIND` or on how many colons `TrimStart` removes.
- Stat errors on the locale directory other than "does not exist". A directory present in the map is treated as existing, and a listing failure is `Unlistable`.
- The order of directory entries: the listing is taken in the order given, and `ioutil.ReadDir` sorts by name.
- The runtime lookup in the locale tables (the key-as-value fallback at request time). It is not in these two files.
- Logging, and the `isProduction` flag, which the handler does not read.
- Go's nil versus empty map for `Strs`. Reading a nil map behaves like reading an empty one, so `strs` is a plain map. `Envs` keeps the distinction (`Option`), because the loader tests it.
