/**
 * The gte request handler: the route-table check done when a server is built,
 * the pre-handler hook, and the resolution of one request into an outcome
 * (not found, a file to stream, a template to render, or an internal error).
 */
module Server {
  import opened Results
  import opened Text
  import C = Config

  /**
   * What the handler reads of a request: the URL path, the `Accept` and
   * `Accept-Encoding` header values, and the full and short locale tags that
   * util.GetLang and util.GetLangShort derive from it.
   */
  datatype Request = Request(path: string, accept: string, acceptEncoding: string, lang: string, langShort: string)

  /** A pre-handler: true means it has answered the request and handling stops. */
  type Prehandler = Request -> bool

  /**
   * The collaborators the handler calls whose bodies are not part of this model:
   * filepath.Join, util.MatchRoute, util.FormatParam, util.ShouldGZip,
   * util.ShouldCWebp, mime.TypeByExtension, and url.PathUnescape applied to
   * filepath.Base (a name, or the unescape error).
   */
  datatype Helpers = Helpers(
    join: (string, string) -> string,
    matchRoute: (string, string) -> bool,
    formatParam: string -> string,
    shouldGZip: string -> bool,
    shouldCWebp: string -> bool,
    typeByExtension: string -> string,
    unescapeBase: string -> Result<string, string>)

  /**
   * What util.ParseTemplates gave: a parse error, no template set, or a set whose
   * execution of a named template yields its error message, if any.
   */
  datatype Templates =
    | ParseFailed(msg: string)
    | NoTemplates
    | Parsed(execute: string -> Option<string>)

  /** How a request ends. */
  datatype Outcome =
    | Intercepted(prehandler: nat)          // the pre-handler at this index answered it
    | NotFound
    | ServeFile(file: string, contentEncoding: Option<string>, contentType: Option<string>)
    | RenderTemplate(route: C.Route, mimeType: string, gzipName: Option<string>)  // gzip stream name when compressed
    | InternalError(msg: string)

  // ---------------------------------------------------------------- route table check

  /** Two routes of the table normalise to the same parameterised shape. */
  predicate HasDuplicateShape(routes: seq<C.Route>, formatParam: string -> string) {
    exists i, j :: 0 <= i < j < |routes| && formatParam(routes[i].path) == formatParam(routes[j].path)
  }

  function DuplicateMessage(path: string, first: string): string {
    "Duplicate route path: '" + path + "' with '" + first + "'"
  }

  /** The `checked` map after the routes: each shape seen, with the path of the first route that had it. */
  function FirstSeen(routes: seq<C.Route>, formatParam: string -> string): map<string, string>
    decreases |routes|
  {
    if routes == [] then map[]
    else
      var seen := FirstSeen(routes[..|routes| - 1], formatParam);
      var last := routes[|routes| - 1];
      var f := formatParam(last.path);
      if f in seen then seen else seen[f := last.path]
  }

  /** The error NewServer reports for the table, if any. */
  function DuplicateRouteError(routes: seq<C.Route>, formatParam: string -> string): Option<string>
    decreases |routes|
  {
    if routes == [] then None
    else
      var init := routes[..|routes| - 1];
      var prev := DuplicateRouteError(init, formatParam);
      var last := routes[|routes| - 1];
      var seen := FirstSeen(init, formatParam);
      if prev.Some? then prev
      else if formatParam(last.path) in seen then Some(DuplicateMessage(last.path, seen[formatParam(last.path)]))
      else None
  }

  /** FirstSeen holds exactly the shapes of the routes. */
  lemma {:induction false} FirstSeenShapes(routes: seq<C.Route>, formatParam: string -> string, f: string)
    ensures f in FirstSeen(routes, formatParam) <==> exists i :: 0 <= i < |routes| && formatParam(routes[i].path) == f
    decreases |routes|
  {
    if routes != [] {
      var init := routes[..|routes| - 1];
      FirstSeenShapes(init, formatParam, f);
      assert forall i :: 0 <= i < |init| ==> init[i] == routes[i];
    }
  }

  /** FirstSeen records, for each shape, the path of the first route of that shape. */
  lemma {:induction false} FirstSeenFirst(routes: seq<C.Route>, formatParam: string -> string, f: string)
    requires f in FirstSeen(routes, formatParam)
    ensures exists i :: && 0 <= i < |routes| && formatParam(routes[i].path) == f
                        && FirstSeen(routes, formatParam)[f] == routes[i].path
                        && forall k :: 0 <= k < i ==> formatParam(routes[k].path) != f
    decreases |routes|
  {
    var n := |routes| - 1;
    var init := routes[..n];
    if f in FirstSeen(init, formatParam) {
      FirstSeenFirst(init, formatParam, f);
      var i :| && 0 <= i < |init| && formatParam(init[i].path) == f
               && FirstSeen(init, formatParam)[f] == init[i].path
               && forall k :: 0 <= k < i ==> formatParam(init[k].path) != f;
      assert forall k :: 0 <= k <= i ==> init[k] == routes[k];
    } else {
      FirstSeenShapes(init, formatParam, f);
      assert forall k :: 0 <= k < n ==> init[k] == routes[k];
    }
  }

  /** A table has a duplicate when its prefix has one or its last route repeats a shape of the prefix. */
  lemma HasDuplicateExtend(routes: seq<C.Route>, formatParam: string -> string)
    requires routes != []
    ensures var init := routes[..|routes| - 1];
            HasDuplicateShape(routes, formatParam) <==>
              || HasDuplicateShape(init, formatParam)
              || exists i :: 0 <= i < |init| && formatParam(init[i].path) == formatParam(routes[|routes| - 1].path)
  {
    var n := |routes| - 1;
    var init := routes[..n];
    if HasDuplicateShape(routes, formatParam) {
      var i, j :| 0 <= i < j < |routes| && formatParam(routes[i].path) == formatParam(routes[j].path);
      assert init[i] == routes[i];
      if j < n {
        assert init[j] == routes[j];
      }
    }
    if HasDuplicateShape(init, formatParam) {
      var i, j :| 0 <= i < j < |init| && formatParam(init[i].path) == formatParam(init[j].path);
      assert init[i] == routes[i] && init[j] == routes[j];
    }
    if exists i :: 0 <= i < |init| && formatParam(init[i].path) == formatParam(routes[n].path) {
      var i :| 0 <= i < |init| && formatParam(init[i].path) == formatParam(routes[n].path);
      assert init[i] == routes[i];
    }
  }

  /** No route before index `i` has the shape of route `i`. */
  predicate FirstOfShape(routes: seq<C.Route>, formatParam: string -> string, i: int)
    requires 0 <= i < |routes|
  {
    forall k :: 0 <= k < i ==> formatParam(routes[k].path) != formatParam(routes[i].path)
  }

  /** The table is rejected exactly when two of its routes share a shape. */
  lemma {:induction false} DuplicateRouteErrorMeaning(routes: seq<C.Route>, formatParam: string -> string)
    ensures DuplicateRouteError(routes, formatParam).None? <==> !HasDuplicateShape(routes, formatParam)
    decreases |routes|
  {
    if routes != [] {
      var init := routes[..|routes| - 1];
      DuplicateRouteErrorMeaning(init, formatParam);
      FirstSeenShapes(init, formatParam, formatParam(routes[|routes| - 1].path));
      HasDuplicateExtend(routes, formatParam);
    }
  }

  /**
   * The error names the first route that repeats a shape and the first route
   * that had that shape.
   */
  lemma {:induction false} DuplicateRouteErrorNames(routes: seq<C.Route>, formatParam: string -> string)
    requires DuplicateRouteError(routes, formatParam).Some?
    ensures exists i, j :: && 0 <= i < j < |routes|
                           && formatParam(routes[i].path) == formatParam(routes[j].path)
                           && FirstOfShape(routes, formatParam, i)
                           && !HasDuplicateShape(routes[..j], formatParam)
                           && DuplicateRouteError(routes, formatParam).value == DuplicateMessage(routes[j].path, routes[i].path)
    decreases |routes|
  {
    var n := |routes| - 1;
    var init := routes[..n];
    if DuplicateRouteError(init, formatParam).Some? {
      DuplicateRouteErrorNames(init, formatParam);
      var i, j :| && 0 <= i < j < |init|
                  && formatParam(init[i].path) == formatParam(init[j].path)
                  && FirstOfShape(init, formatParam, i)
                  && !HasDuplicateShape(init[..j], formatParam)
                  && DuplicateRouteError(init, formatParam).value == DuplicateMessage(init[j].path, init[i].path);
      assert init[..j] == routes[..j];
      assert forall k :: 0 <= k <= j ==> init[k] == routes[k];
      assert FirstOfShape(routes, formatParam, i);
    } else {
      var f := formatParam(routes[n].path);
      FirstSeenFirst(init, formatParam, f);
      var i :| && 0 <= i < n && formatParam(init[i].path) == f
               && FirstSeen(init, formatParam)[f] == init[i].path
               && forall k :: 0 <= k < i ==> formatParam(init[k].path) != f;
      DuplicateRouteErrorMeaning(init, formatParam);
      assert forall k :: 0 <= k < n ==> init[k] == routes[k];
      assert FirstOfShape(routes, formatParam, i);
      assert routes[..n] == init;
    }
  }

  /** The duplicate-route loop of NewServer, filling the `checked` map route by route. */
  method CheckRoutes(routes: seq<C.Route>, formatParam: string -> string) returns (err: Option<string>)
    ensures err == DuplicateRouteError(routes, formatParam)
    ensures err.None? <==> !HasDuplicateShape(routes, formatParam)
  {
    var checked: map<string, string> := map[];
    var k := 0;
    while k < |routes|
      invariant 0 <= k <= |routes|
      invariant checked == FirstSeen(routes[..k], formatParam)
      invariant DuplicateRouteError(routes[..k], formatParam) == None
    {
      var route := routes[k];
      assert routes[..k + 1][..k] == routes[..k];
      var f := formatParam(route.path);
      if f in checked {
        err := Some(DuplicateMessage(route.path, checked[f]));
        DuplicateStops(routes, k + 1, formatParam);
        DuplicateRouteErrorMeaning(routes, formatParam);
        assert err == DuplicateRouteError(routes[..k + 1], formatParam);
        return;
      }
      checked := checked[f := route.path];
      k := k + 1;
    }
    assert routes[..k] == routes;
    err := None;
    DuplicateRouteErrorMeaning(routes, formatParam);
  }

  /** Once a prefix of the table is rejected, the routes after it change nothing. */
  lemma {:induction false} DuplicateStops(routes: seq<C.Route>, k: nat, formatParam: string -> string)
    requires k <= |routes|
    requires DuplicateRouteError(routes[..k], formatParam).Some?
    ensures DuplicateRouteError(routes, formatParam) == DuplicateRouteError(routes[..k], formatParam)
    decreases |routes|
  {
    if k < |routes| {
      assert routes[..|routes| - 1][..k] == routes[..k];
      DuplicateStops(routes[..|routes| - 1], k, formatParam);
    } else {
      assert routes[..k] == routes;
    }
  }

  // ---------------------------------------------------------------- request resolution

  /** The first pre-handler that answers the request, if any. */
  function FirstInterrupt(prehandlers: seq<Prehandler>, r: Request): (k: Option<nat>)
    ensures k.Some? ==> k.value < |prehandlers| && prehandlers[k.value](r)
                        && forall j :: 0 <= j < k.value ==> !prehandlers[j](r)
    ensures k.None? ==> forall j :: 0 <= j < |prehandlers| ==> !prehandlers[j](r)
    decreases |prehandlers|
  {
    if prehandlers == [] then None
    else if prehandlers[0](r) then Some(0)
    else match FirstInterrupt(prehandlers[1..], r)
      case Some(k) => Some(k + 1)
      case None => None
  }

  /** The index of the last route whose pattern matches `uri`, if any. */
  function LastMatch(routes: seq<C.Route>, uri: string, matchRoute: (string, string) -> bool): (k: Option<nat>)
    ensures k.Some? ==> k.value < |routes| && matchRoute(routes[k.value].path, uri)
                        && forall j :: k.value < j < |routes| ==> !matchRoute(routes[j].path, uri)
    ensures k.None? ==> forall j :: 0 <= j < |routes| ==> !matchRoute(routes[j].path, uri)
    decreases |routes|
  {
    if routes == [] then None
    else if matchRoute(routes[|routes| - 1].path, uri) then Some(|routes| - 1)
    else LastMatch(routes[..|routes| - 1], uri, matchRoute)
  }

  /** The target a request path names before any probing: `/` names the index document. */
  function InitialTarget(path: string): string {
    if path == "/" then "/index.html" else path
  }

  /** `target` with `_<tag>` inserted before its extension. */
  function LocaleSibling(target: string, tag: string): string {
    var ext := Ext(target);
    TrimSuffix(target, ext) + "_" + tag + ext
  }

  /** The locale probe: the short-tag sibling if it exists, else the full-tag sibling if it exists, else the target. */
  function LocaleTarget(root: string, target: string, r: Request, files: set<string>, join: (string, string) -> string): string {
    if join(root, LocaleSibling(target, r.langShort)) in files then LocaleSibling(target, r.langShort)
    else if join(root, LocaleSibling(target, r.lang)) in files then LocaleSibling(target, r.lang)
    else target
  }

  /** The route a request resolves to: the last matching declared route, or the locale-probed identity route. */
  function ResolveRoute(cfg: C.Config, h: Helpers, r: Request, files: set<string>): C.Route {
    match LastMatch(cfg.routes, r.path, h.matchRoute)
    case Some(i) => cfg.routes[i]
    case None => C.Route(r.path, LocaleTarget(cfg.root, InitialTarget(r.path), r, files, h.join))
  }

  /** A file outside `.html`: its webp sibling, else its `.gzip` sibling, else the file itself. */
  function ServeStatic(root: string, h: Helpers, r: Request, files: set<string>, ext: string, route: C.Route): Outcome {
    var path := h.join(root, route.to);
    if h.shouldCWebp(ext) && Contains(r.accept, "webp") && path + ".webp" in files then
      ServeFile(path + ".webp", None, None)
    else if h.shouldGZip(ext) && Contains(r.acceptEncoding, "gzip") && path + ".gzip" in files then
      ServeFile(path + ".gzip", Some("gzip"), Some(h.typeByExtension(ext)))
    else
      ServeFile(path, None, None)
  }

  /** An `.html` target: the template of that name is rendered as text/html, compressed when gzip is accepted. */
  function RenderHtml(h: Helpers, r: Request, templates: Templates, route: C.Route): Outcome {
    match templates
    case ParseFailed(msg) => InternalError(msg)
    case NoTemplates => NotFound
    case Parsed(execute) =>
      match execute(route.to)
      case Some(msg) => if Contains(msg, "is undefined") then NotFound else InternalError(msg)
      case None =>
        if !Contains(r.acceptEncoding, "gzip") then RenderTemplate(route, "text/html", None)
        else match h.unescapeBase(route.to)
          case Err(msg) => InternalError(msg)
          case Ok(name) => RenderTemplate(route, "text/html", Some(name))
  }

  /** The outcome of a request, step by step as the handler takes them. */
  function Resolve(cfg: C.Config, h: Helpers, prehandlers: seq<Prehandler>, r: Request,
                   files: set<string>, templates: Templates): Outcome
  {
    match FirstInterrupt(prehandlers, r)
    case Some(k) => Intercepted(k)
    case None =>
      if r.path in cfg.blackList + cfg.internalBlackList then NotFound
      else
        var ext := Ext(InitialTarget(r.path));
        var route := ResolveRoute(cfg, h, r, files);
        if ext == ".html" then RenderHtml(h, r, templates, route)
        else ServeStatic(cfg.root, h, r, files, ext, route)
  }

  // ---------------------------------------------------------------- properties of the resolution

  /** Pre-handlers are consulted in order; the first that answers ends handling. */
  lemma PrehandlersRunInOrder(cfg: C.Config, h: Helpers, prehandlers: seq<Prehandler>, r: Request,
                              files: set<string>, templates: Templates, k: nat)
    ensures Resolve(cfg, h, prehandlers, r, files, templates) == Intercepted(k) <==>
            k < |prehandlers| && prehandlers[k](r) && forall j :: 0 <= j < k ==> !prehandlers[j](r)
  {
  }

  /** A path on the black list or the internal black list is not found, whatever the routes, files and templates. */
  lemma BlacklistedPathIsNotFound(cfg: C.Config, h: Helpers, prehandlers: seq<Prehandler>, r: Request,
                                  files: set<string>, templates: Templates)
    requires forall j :: 0 <= j < |prehandlers| ==> !prehandlers[j](r)
    requires r.path in cfg.blackList || r.path in cfg.internalBlackList
    ensures Resolve(cfg, h, prehandlers, r, files, templates) == NotFound
  {
  }

  /**
   * Route selection: the last declared route matching the original request path
   * gives both path and target, whatever the locale probe found; with no match
   * the request keeps its own path and the probed identity target.
   */
  lemma RouteSelection(cfg: C.Config, h: Helpers, r: Request, files: set<string>, files': set<string>)
    ensures (exists i :: 0 <= i < |cfg.routes| && h.matchRoute(cfg.routes[i].path, r.path)) ==>
              exists i :: && 0 <= i < |cfg.routes| && h.matchRoute(cfg.routes[i].path, r.path)
                          && (forall j :: i < j < |cfg.routes| ==> !h.matchRoute(cfg.routes[j].path, r.path))
                          && ResolveRoute(cfg, h, r, files) == cfg.routes[i] == ResolveRoute(cfg, h, r, files')
    ensures (forall i :: 0 <= i < |cfg.routes| ==> !h.matchRoute(cfg.routes[i].path, r.path)) ==>
              ResolveRoute(cfg, h, r, files) == C.Route(r.path, LocaleTarget(cfg.root, InitialTarget(r.path), r, files, h.join))
  {
    match LastMatch(cfg.routes, r.path, h.matchRoute)
    case Some(i) =>
      assert ResolveRoute(cfg, h, r, files) == cfg.routes[i] == ResolveRoute(cfg, h, r, files');
    case None =>
  }

  /** The locale probe prefers the short tag, then the full tag, and otherwise keeps the target. */
  lemma LocaleProbeOrder(root: string, target: string, r: Request, files: set<string>, join: (string, string) -> string)
    ensures var t, short, full := LocaleTarget(root, target, r, files, join),
                                  LocaleSibling(target, r.langShort), LocaleSibling(target, r.lang);
            && (join(root, short) in files ==> t == short)
            && (join(root, short) !in files && join(root, full) in files ==> t == full)
            && (join(root, short) !in files && join(root, full) !in files ==> t == target)
  {
  }

  /** Appending to anything a dot-led suffix free of further dots and slashes leaves that suffix as the extension. */
  lemma {:induction false} ExtOfDotted(x: string, e: string)
    requires e != [] && e[0] == '.' && forall i :: 1 <= i < |e| ==> e[i] != '.' && e[i] != '/'
    ensures Ext(x + e) == e
    decreases |e|
  {
    var s := x + e;
    var c := s[|s| - 1];
    assert c == e[|e| - 1];
    if |e| > 1 {
      assert s[..|s| - 1] == x + e[..|e| - 1];
      ExtOfDotted(x, e[..|e| - 1]);
      assert c != '/' && c != '.';
      assert Ext(s) == Ext(s[..|s| - 1]) + [c];
      assert e[..|e| - 1] + [e[|e| - 1]] == e;
    }
  }

  /** Appending dot-free text to a path without an extension gives a path without an extension. */
  lemma {:induction false} ExtOfDotFree(x: string, y: string)
    requires Ext(x) == [] && '.' !in y
    ensures Ext(x + y) == []
    decreases |y|
  {
    if y == [] {
      assert x + y == x;
    } else {
      var s := x + y;
      var y', c := y[..|y| - 1], y[|y| - 1];
      assert y == y' + [c];
      assert s[|s| - 1] == c && c != '.';
      assert s[..|s| - 1] == x + y';
      ExtOfDotFree(x, y');
      if c != '/' {
        assert Ext(s) == (if Ext(x + y') == [] then "" else Ext(x + y') + [c]);
      }
    }
  }

  /** A locale sibling has the extension of its target, for any tag without a dot. */
  lemma LocaleSiblingKeepsExt(target: string, tag: string)
    requires '.' !in tag
    ensures Ext(LocaleSibling(target, tag)) == Ext(target)
  {
    var ext := Ext(target);
    var prefix := TrimSuffix(target, ext);
    if ext == [] {
      assert prefix == target;
      assert '.' !in "_" + tag;
      ExtOfDotFree(target, "_" + tag);
      assert LocaleSibling(target, tag) == target + ("_" + tag);
    } else {
      ExtOfDotted(prefix + "_" + tag, ext);
    }
  }

  /**
   * The branch follows the extension of the request's own target, before any
   * route rewrites it: outside `.html` a file is always served, for `.html`
   * never.
   */
  lemma BranchFollowsRequestExtension(cfg: C.Config, h: Helpers, prehandlers: seq<Prehandler>, r: Request,
                                      files: set<string>, templates: Templates)
    requires forall j :: 0 <= j < |prehandlers| ==> !prehandlers[j](r)
    requires r.path !in cfg.blackList + cfg.internalBlackList
    ensures var o := Resolve(cfg, h, prehandlers, r, files, templates);
            && (Ext(InitialTarget(r.path)) != ".html" ==> o.ServeFile?)
            && (Ext(InitialTarget(r.path)) == ".html" ==> o.NotFound? || o.InternalError? || o.RenderTemplate?)
  {
  }

  /**
   * Outside `.html`: an eligible, accepted and existing webp sibling is served
   * and gzip is never tried; else an eligible, accepted and existing `.gzip`
   * sibling is served with gzip encoding and the extension's type; else the
   * resolved file itself.
   */
  lemma StaticNegotiation(cfg: C.Config, h: Helpers, prehandlers: seq<Prehandler>, r: Request,
                          files: set<string>, templates: Templates)
    requires forall j :: 0 <= j < |prehandlers| ==> !prehandlers[j](r)
    requires r.path !in cfg.blackList + cfg.internalBlackList
    requires Ext(InitialTarget(r.path)) != ".html"
    ensures var ext := Ext(InitialTarget(r.path));
            var path := h.join(cfg.root, ResolveRoute(cfg, h, r, files).to);
            var webp := h.shouldCWebp(ext) && Contains(r.accept, "webp") && path + ".webp" in files;
            var gzip := h.shouldGZip(ext) && Contains(r.acceptEncoding, "gzip") && path + ".gzip" in files;
            var o := Resolve(cfg, h, prehandlers, r, files, templates);
            && (webp ==> o == ServeFile(path + ".webp", None, None))
            && (!webp && gzip ==> o == ServeFile(path + ".gzip", Some("gzip"), Some(h.typeByExtension(ext))))
            && (!webp && !gzip ==> o == ServeFile(path, None, None))
  {
  }

  /**
   * `.html`: a parse failure is an internal error and no template set is not
   * found; a rendered page is text/html and compressed exactly when the client
   * accepts gzip; an execution error mentioning "is undefined" is not found and
   * any other is an internal error carrying its message, as is a target whose
   * base name does not unescape.
   */
  lemma HtmlRendering(cfg: C.Config, h: Helpers, prehandlers: seq<Prehandler>, r: Request,
                      files: set<string>, templates: Templates)
    requires forall j :: 0 <= j < |prehandlers| ==> !prehandlers[j](r)
    requires r.path !in cfg.blackList + cfg.internalBlackList
    requires Ext(InitialTarget(r.path)) == ".html"
    ensures var route := ResolveRoute(cfg, h, r, files);
            var o := Resolve(cfg, h, prehandlers, r, files, templates);
            && (o.RenderTemplate? ==> o.route == route && o.mimeType == "text/html"
                                      && (o.gzipName.Some? <==> Contains(r.acceptEncoding, "gzip")))
            && (templates.Parsed? && templates.execute(route.to).Some? ==>
                  var msg := templates.execute(route.to).value;
                  o == if Contains(msg, "is undefined") then NotFound else InternalError(msg))
            && (templates.ParseFailed? ==> o == InternalError(templates.msg))
            && (templates.NoTemplates? ==> o == NotFound)
            && (templates.Parsed? && templates.execute(route.to).None? ==>
                  if !Contains(r.acceptEncoding, "gzip") then o == RenderTemplate(route, "text/html", None)
                  else match h.unescapeBase(route.to)
                    case Err(m) => o == InternalError(m)
                    case Ok(n) => o == RenderTemplate(route, "text/html", Some(n)))
  {
  }

  /**
   * A request for `/` that accepts gzip and matches no route renders the index
   * document as text/html, compressed on the fly.
   */
  lemma RootRendersIndex(cfg: C.Config, h: Helpers, prehandlers: seq<Prehandler>, r: Request,
                         files: set<string>, execute: string -> Option<string>, name: string)
    requires forall j :: 0 <= j < |prehandlers| ==> !prehandlers[j](r)
    requires r.path == "/" && "/" !in cfg.blackList + cfg.internalBlackList
    requires r.acceptEncoding == "gzip, deflate"
    requires forall i :: 0 <= i < |cfg.routes| ==> !h.matchRoute(cfg.routes[i].path, "/")
    requires h.join(cfg.root, LocaleSibling("/index.html", r.langShort)) !in files
    requires h.join(cfg.root, LocaleSibling("/index.html", r.lang)) !in files
    requires execute("/index.html") == None && h.unescapeBase("/index.html") == Ok(name)
    ensures Resolve(cfg, h, prehandlers, r, files, Parsed(execute))
            == RenderTemplate(C.Route("/", "/index.html"), "text/html", Some(name))
  {
    IndexExt("/index.html");
    assert OccursAt(r.acceptEncoding, "gzip", 0);
  }

  lemma IndexExt(target: string)
    requires target == "/index.html"
    ensures Ext(target) == ".html"
  {
    ExtOfDotted("/index", ".html");
    assert target == "/index" + ".html";
  }

  /**
   * A request for `/img/logo.png` that accepts webp, when `.png` is eligible and
   * `logo.png.webp` exists, is served that file, with no gzip negotiation.
   */
  lemma WebpLogoServed(cfg: C.Config, h: Helpers, prehandlers: seq<Prehandler>, r: Request,
                       files: set<string>, templates: Templates)
    requires forall j :: 0 <= j < |prehandlers| ==> !prehandlers[j](r)
    requires r.path == "/img/logo.png" && r.path !in cfg.blackList + cfg.internalBlackList
    requires r.accept == "image/webp,*/*" && h.shouldCWebp(".png")
    requires forall i :: 0 <= i < |cfg.routes| ==> !h.matchRoute(cfg.routes[i].path, r.path)
    requires h.join(cfg.root, LocaleSibling(r.path, r.langShort)) !in files
    requires h.join(cfg.root, LocaleSibling(r.path, r.lang)) !in files
    requires h.join(cfg.root, "/img/logo.png") + ".webp" in files
    ensures Resolve(cfg, h, prehandlers, r, files, templates)
            == ServeFile(h.join(cfg.root, "/img/logo.png") + ".webp", None, None)
  {
    LogoExt(r.path);
    AcceptsWebp(r.accept);
    assert LastMatch(cfg.routes, r.path, h.matchRoute).None?;
    assert ResolveRoute(cfg, h, r, files) == C.Route(r.path, r.path);
  }

  lemma LogoExt(path: string)
    requires path == "/img/logo.png"
    ensures InitialTarget(path) == path && Ext(path) == ".png"
  {
    ExtOfDotted("/img/logo", ".png");
    assert path == "/img/logo" + ".png";
  }

  lemma AcceptsWebp(accept: string)
    requires accept == "image/webp,*/*"
    ensures Contains(accept, "webp")
  {
    assert OccursAt(accept, "webp", 6);
  }

  // ---------------------------------------------------------------- the server object

  class Server {
    const cfg: C.Config
    const isProduction: bool
    const helpers: Helpers
    var prehandlers: seq<Prehandler>

    constructor (cfg: C.Config, isProduction: bool, helpers: Helpers)
      ensures this.cfg == cfg && this.isProduction == isProduction && this.helpers == helpers
      ensures prehandlers == []
    {
      this.cfg := cfg;
      this.isProduction := isProduction;
      this.helpers := helpers;
      prehandlers := [];
    }

    /** NewServer: a server for `cfg`, unless two of its routes share a parameterised shape. */
    static method NewServer(cfg: C.Config, isProduction: bool, helpers: Helpers) returns (r: Result<Server, string>)
      ensures r.Err? <==> HasDuplicateShape(cfg.routes, helpers.formatParam)
      ensures r.Err? ==> Some(r.error) == DuplicateRouteError(cfg.routes, helpers.formatParam)
      ensures r.Ok? ==> fresh(r.value) && r.value.cfg == cfg && r.value.isProduction == isProduction
                        && r.value.helpers == helpers && r.value.prehandlers == []
    {
      var err := CheckRoutes(cfg.routes, helpers.formatParam);
      if err.Some? {
        return Err(err.value);
      }
      var s := new Server(cfg, isProduction, helpers);
      return Ok(s);
    }

    /** Registers a pre-handler after those already registered. */
    method AddPrehandler(fn: Prehandler)
      modifies this
      ensures prehandlers == old(prehandlers) + [fn]
    {
      prehandlers := prehandlers + [fn];
    }

    /** ServeHTTP: resolves one request against the configuration, the file system and the parsed templates. */
    method ServeHTTP(r: Request, files: set<string>, templates: Templates) returns (o: Outcome)
      ensures o == Resolve(cfg, helpers, prehandlers, r, files, templates)
    {
      // pre-handlers
      var k := 0;
      while k < |prehandlers|
        invariant 0 <= k <= |prehandlers|
        invariant forall j :: 0 <= j < k ==> !prehandlers[j](r)
      {
        if prehandlers[k](r) {
          return Intercepted(k);
        }
        k := k + 1;
      }

      // black list
      var blackList := cfg.blackList + cfg.internalBlackList;
      var b := 0;
      while b < |blackList|
        invariant 0 <= b <= |blackList|
        invariant forall j :: 0 <= j < b ==> blackList[j] != r.path
      {
        if r.path == blackList[b] {
          return NotFound;
        }
        b := b + 1;
      }

      var route, ext := RouteRequest(r, files);
      if ext != ".html" {
        o := ServeStaticFile(r, files, ext, route);
      } else {
        o := RenderPage(r, templates, route);
      }
    }

    /** The route and target steps of ServeHTTP: identity, locale probe, then the declared routes. */
    method RouteRequest(r: Request, files: set<string>) returns (route: C.Route, ext: string)
      ensures route == ResolveRoute(cfg, helpers, r, files)
      ensures ext == Ext(InitialTarget(r.path))
    {
      var identity;
      identity, ext := LocaleRoute(r, files);
      route := MatchRoutes(r.path, identity);
    }

    /** The identity route of a request, with its target moved to a locale sibling when one exists. */
    method LocaleRoute(r: Request, files: set<string>) returns (route: C.Route, ext: string)
      ensures route == C.Route(r.path, LocaleTarget(cfg.root, InitialTarget(r.path), r, files, helpers.join))
      ensures ext == Ext(InitialTarget(r.path))
    {
      route := C.Route(r.path, r.path);
      if route.to == "/" {
        route := route.(to := "/index.html");
      }
      ext := Ext(route.to);
      var prefix := TrimSuffix(route.to, ext);
      if helpers.join(cfg.root, prefix + "_" + r.langShort + ext) in files {
        route := route.(to := prefix + "_" + r.langShort + ext);
      } else if helpers.join(cfg.root, prefix + "_" + r.lang + ext) in files {
        route := route.(to := prefix + "_" + r.lang + ext);
      }
    }

    /** The declared routes in order: the last one whose pattern matches the path replaces the route. */
    method MatchRoutes(path: string, identity: C.Route) returns (route: C.Route)
      ensures route == match LastMatch(cfg.routes, path, helpers.matchRoute)
                       case Some(m) => cfg.routes[m]
                       case None => identity
    {
      route := identity;
      var i := 0;
      while i < |cfg.routes|
        invariant 0 <= i <= |cfg.routes|
        invariant route == match LastMatch(cfg.routes[..i], path, helpers.matchRoute)
                           case Some(m) => cfg.routes[m]
                           case None => identity
      {
        assert cfg.routes[..i + 1][..i] == cfg.routes[..i];
        var cfgRoute := cfg.routes[i];
        if helpers.matchRoute(cfgRoute.path, path) {
          route := route.(path := cfgRoute.path, to := cfgRoute.to);
        }
        i := i + 1;
      }
      assert cfg.routes[..i] == cfg.routes;
    }

    /** The non-`.html` branch of ServeHTTP: webp sibling, then `.gzip` sibling, then the file itself. */
    method ServeStaticFile(r: Request, files: set<string>, ext: string, route: C.Route) returns (o: Outcome)
      ensures o == ServeStatic(cfg.root, helpers, r, files, ext, route)
    {
      var path := helpers.join(cfg.root, route.to);
      if helpers.shouldCWebp(ext) && Contains(r.accept, "webp") {
        if path + ".webp" in files {
          return ServeFile(path + ".webp", None, None);
        }
      }
      // gzip
      if helpers.shouldGZip(ext) && Contains(r.acceptEncoding, "gzip") {
        if path + ".gzip" in files {
          return ServeFile(path + ".gzip", Some("gzip"), Some(helpers.typeByExtension(ext)));
        }
      }
      return ServeFile(path, None, None);
    }

    /** The `.html` branch of ServeHTTP: parse, execute, then write plainly or through gzip. */
    method RenderPage(r: Request, templates: Templates, route: C.Route) returns (o: Outcome)
      ensures o == RenderHtml(helpers, r, templates, route)
    {
      // parse templates
      var execute;
      match templates {
        case ParseFailed(msg) => return InternalError(msg);
        case NoTemplates => return NotFound;
        case Parsed(exec) => execute := exec;
      }
      var e := execute(route.to);
      if e.Some? {
        if Contains(e.value, "is undefined") {
          return NotFound;
        }
        return InternalError(e.value);
      }

      // gzip
      if Contains(r.acceptEncoding, "gzip") {
        var name := helpers.unescapeBase(route.to);
        if name.Err? {
          return InternalError(name.error);
        }
        return RenderTemplate(route, "text/html", Some(name.value));
      }
      return RenderTemplate(route, "text/html", None);
    }
  }
}
