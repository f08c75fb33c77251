/**
 * The configuration of a gte server: the route records with their parameter
 * helpers, and LoadConfig, which builds a Config from defaults, the project's
 * descriptor file, an optional named environment and the locale resource files.
 */
module Config {
  import opened Results
  import opened Text

  /** Name of the descriptor file under the project root. */
  const ConfigFileName: string := "gte.config.json"

  /** A declared mapping from a URL path pattern to a target asset or template. */
  datatype Route = Route(path: string, to: string) {

    /**
     * Parameter extraction: positional over the `/`-separated segments of the
     * pattern and of `uri`, up to the shorter of the two; a segment `:name` of
     * the pattern binds `trimColon(":name")` to the URI's segment at the same
     * index (a later binding of the same name replaces an earlier one).
     * `trimColon` is strToolkit.TrimStart(_, ":"), whose body is not part of this model.
     */
    method Params(uri: string, trimColon: string -> string) returns (m: map<string, string>)
      ensures var ss1, ss2 := Split(path, '/'), Split(uri, '/');
              m == ParamMap(ss1, ss2, trimColon, if |ss1| < |ss2| then |ss1| else |ss2|)
    {
      var ss1 := Split(path, '/');
      var ss2 := Split(uri, '/');
      m := map[];
      var i := 0;
      while i < |ss1| && i < |ss2|
        invariant 0 <= i <= |ss1| && i <= |ss2|
        invariant m == ParamMap(ss1, ss2, trimColon, i)
      {
        var k := ss1[i];
        if k == "" {
          i := i + 1;
          continue;
        }
        if !HasPrefix(k, ":") {
          i := i + 1;
          continue;
        }
        k := trimColon(k);
        m := m[k := ss2[i]];
        i := i + 1;
      }
    }

    /**
     * The literal part of the pattern before its first parameter segment, i.e.
     * before the first "/:", and whether there is one.
     */
    function ParamPrefix(): (r: (string, bool))
      ensures r.1 <==> Contains(path, "/:")
      ensures r.1 ==> HasPrefix(path, r.0) && OccursAt(path, "/:", |r.0|)
      ensures r.1 ==> forall j :: 0 <= j < |r.0| ==> !OccursAt(path, "/:", j)
      ensures !r.1 ==> r.0 == ""
    {
      var i := IndexOf(path, "/:");
      if i == -1 then ("", false) else (path[..i], true)
    }
  }

  /** A pattern segment that names a parameter. */
  predicate IsParamSegment(seg: string) {
    seg != "" && HasPrefix(seg, ":")
  }

  /** The parameters bound by the first `n` segments of `pattern` against `segs`. */
  function ParamMap(pattern: seq<string>, segs: seq<string>, trimColon: string -> string, n: nat): map<string, string>
    requires n <= |pattern| && n <= |segs|
  {
    if n == 0 then map[]
    else
      var m := ParamMap(pattern, segs, trimColon, n - 1);
      if IsParamSegment(pattern[n - 1]) then m[trimColon(pattern[n - 1]) := segs[n - 1]] else m
  }

  /** A name is bound exactly when some parameter segment among the first `n` carries it. */
  lemma {:induction false} ParamMapKeys(pattern: seq<string>, segs: seq<string>, trimColon: string -> string, n: nat, k: string)
    requires n <= |pattern| && n <= |segs|
    ensures k in ParamMap(pattern, segs, trimColon, n) <==>
            exists i :: 0 <= i < n && IsParamSegment(pattern[i]) && trimColon(pattern[i]) == k
  {
    if n > 0 {
      ParamMapKeys(pattern, segs, trimColon, n - 1, k);
    }
  }

  /** A name is bound to the URI segment under the last parameter segment that carries it. */
  lemma {:induction false} ParamMapValue(pattern: seq<string>, segs: seq<string>, trimColon: string -> string, n: nat, i: nat)
    requires n <= |pattern| && n <= |segs|
    requires i < n && IsParamSegment(pattern[i])
    requires forall j :: i < j < n && IsParamSegment(pattern[j]) ==> trimColon(pattern[j]) != trimColon(pattern[i])
    ensures var m := ParamMap(pattern, segs, trimColon, n);
            trimColon(pattern[i]) in m && m[trimColon(pattern[i])] == segs[i]
  {
    if i < n - 1 {
      ParamMapValue(pattern, segs, trimColon, n - 1, i);
    }
  }

  /** `/users/:id/posts/:postId` against `/users/42/posts/7` binds `id` and `postId`. */
  lemma ParamsOfUserPost(pattern: string, uri: string, trimColon: string -> string)
    requires pattern == "/users/:id/posts/:postId" && uri == "/users/42/posts/7"
    requires trimColon(":id") == "id" && trimColon(":postId") == "postId"
    ensures var ss1, ss2 := Split(pattern, '/'), Split(uri, '/');
            |ss1| == |ss2| == 5 && ParamMap(ss1, ss2, trimColon, 5) == map["id" := "42", "postId" := "7"]
  {
    assert Excludes(":id", '/') && Excludes(":postId", '/') && Excludes("42", '/') && Excludes("7", '/');
    assert pattern == "/users/" + ":id" + "/posts/" + ":postId";
    assert uri == "/users/" + "42" + "/posts/" + "7";
    var p := SplitOfUserPath(pattern, ":id", ":postId");
    var u := SplitOfUserPath(uri, "42", "7");
    ParamMapOfUserPost(p, u, trimColon);
  }

  /** `/users/<id>/posts/<postId>` splits into its five segments when neither part holds a slash. */
  lemma SplitOfUserPath(s: string, id: string, postId: string) returns (pieces: seq<string>)
    requires s == "/users/" + id + "/posts/" + postId
    requires Excludes(id, '/') && Excludes(postId, '/')
    ensures pieces == ["", "users", id, "posts", postId] == Split(s, '/')
  {
    pieces := ["", "users", id, "posts", postId];
    assert s == "/" + "users" + "/" + id + "/" + "posts" + "/" + postId;
    SplitOfUserPost(pieces, s);
  }

  lemma ParamMapOfUserPost(p: seq<string>, u: seq<string>, trimColon: string -> string)
    requires p == ["", "users", ":id", "posts", ":postId"] && u == ["", "users", "42", "posts", "7"]
    requires trimColon(":id") == "id" && trimColon(":postId") == "postId"
    ensures ParamMap(p, u, trimColon, 5) == map["id" := "42", "postId" := "7"]
  {
    assert p[1][0] == 'u' && p[3][0] == 'p';
    assert !IsParamSegment(p[0]) && !IsParamSegment(p[1]) && !IsParamSegment(p[3]);
    assert p[2][..1] == ":" && p[4][..1] == ":";
    assert IsParamSegment(p[2]) && IsParamSegment(p[4]);
    var m1 := ParamMap(p, u, trimColon, 1);
    assert m1 == ParamMap(p, u, trimColon, 0) == map[];
    var m2 := ParamMap(p, u, trimColon, 2);
    assert m2 == m1;
    var m3 := ParamMap(p, u, trimColon, 3);
    assert m3 == m2[trimColon(p[2]) := u[2]];
    assert p[2] == ":id";
    assert m3 == map["id" := "42"];
    var m4 := ParamMap(p, u, trimColon, 4);
    assert m4 == m3;
    var m5 := ParamMap(p, u, trimColon, 5);
    assert m5 == m4[trimColon(p[4]) := u[4]];
    assert p[4] == ":postId";
  }

  lemma SplitOfUserPost(pieces: seq<string>, s: string)
    requires |pieces| == 5 && pieces[0] == "" && pieces[1] == "users" && pieces[3] == "posts"
    requires forall i :: 0 <= i < 5 ==> Excludes(pieces[i], '/')
    requires s == "/" + "users" + "/" + pieces[2] + "/" + "posts" + "/" + pieces[4]
    ensures Split(s, '/') == pieces
  {
    assert JoinWith(pieces[4..], '/') == pieces[4];
    assert JoinWith(pieces[3..], '/') == "posts/" + pieces[4];
    assert JoinWith(pieces[2..], '/') == pieces[2] + "/posts/" + pieces[4];
    assert JoinWith(pieces[1..], '/') == "users/" + pieces[2] + "/posts/" + pieces[4];
    assert JoinWith(pieces, '/') == s;
    SplitJoin(pieces, '/');
  }

  /** The locale block of the descriptor. */
  datatype LangSetup = LangSetup(dir: string, defaultTag: string, keyAsValue: bool)

  /**
   * A server configuration. `envs` is None where Go's map is nil. The last four
   * fields are never read from the descriptor; `strs` maps a locale tag to that
   * locale's key/value table (a nil Go map reads like an empty one, so it is a plain map).
   */
  datatype Config = Config(
    host: string,
    port: int,
    routes: seq<Route>,
    notFoundPage: string,
    blackList: seq<string>,
    apiServer: string,
    envs: Option<map<string, Config>>,
    lang: LangSetup,
    root: string,
    env: string,
    internalBlackList: seq<string>,
    strs: map<string, map<string, string>>)

  /** The keys present in the decoded `lang` object of the descriptor. */
  datatype LangFile = LangFile(dir: Option<string>, defaultTag: Option<string>, keyAsValue: Option<bool>)

  /** The keys present in the decoded descriptor; an absent key is None. */
  datatype ConfigFile = ConfigFile(
    host: Option<string>,
    port: Option<int>,
    routes: Option<seq<Route>>,
    notFoundPage: Option<string>,
    blackList: Option<seq<string>>,
    apiServer: Option<string>,
    envs: Option<map<string, Config>>,
    lang: Option<LangFile>)

  /** What reading and decoding `<root>/gte.config.json` gave. */
  datatype ConfigSource =
    | Missing                    // the file does not exist
    | ReadFailed(msg: string)    // any other read error
    | Malformed(msg: string)     // the JSON decoder rejected the content
    | Parsed(file: ConfigFile)

  /** What listing a directory gave (a path absent from the file system map does not exist). */
  datatype DirListing = Entries(names: seq<string>) | Unlistable(msg: string)

  /**
   * The collaborators LoadConfig calls whose bodies are not part of this model:
   * filepath.Join, util.ReplaceFieldIND (which updates the config in place and
   * may fail), util.LANG_FILE_EXT, strToolkit.TrimEnd, language.Parse (as a
   * validity test) and util.LoadJsonLangFile.
   */
  datatype ConfigHelpers = ConfigHelpers(
    join: (string, string) -> string,
    replaceFieldIND: (Config, Config) -> (Config, Option<string>),
    langFileExt: string,
    trimEnd: (string, string) -> string,
    validTag: string -> bool,
    loadLangFile: string -> Result<map<string, string>, string>)

  /** The configuration LoadConfig starts from. */
  function Defaults(env: string, root: string, port: int): Config {
    Config(
      host := "0.0.0.0", port := port, routes := [], notFoundPage := "", blackList := [],
      apiServer := "http://localhost", envs := None, lang := LangSetup("", "", false),
      root := root, env := env, internalBlackList := ["/" + ConfigFileName], strs := map[])
  }

  /**
   * Decoding the descriptor into an existing Config: keys present in the file
   * replace the field, absent keys leave it alone, and the fields that are not
   * part of the file format cannot be set.
   */
  function Overlay(base: Config, f: ConfigFile): (r: Config)
    ensures r.root == base.root && r.env == base.env
    ensures r.internalBlackList == base.internalBlackList && r.strs == base.strs
    ensures f == ConfigFile(None, None, None, None, None, None, None, None) ==> r == base
  {
    var lang := match f.lang
      case None => base.lang
      case Some(l) => LangSetup(
        l.dir.GetOr(base.lang.dir), l.defaultTag.GetOr(base.lang.defaultTag), l.keyAsValue.GetOr(base.lang.keyAsValue));
    base.(
      host := f.host.GetOr(base.host),
      port := f.port.GetOr(base.port),
      routes := f.routes.GetOr(base.routes),
      notFoundPage := f.notFoundPage.GetOr(base.notFoundPage),
      blackList := f.blackList.GetOr(base.blackList),
      apiServer := f.apiServer.GetOr(base.apiServer),
      envs := if f.envs.Some? then f.envs else base.envs,
      lang := lang)
  }

  function NoEnvironmentMessage(env: string): string {
    "No environment named '" + env + "'"
  }

  const NoDefaultLangMessage: string := "'lang.dir' configure is set, but default language is not set. e.g. 'zh-HK'"

  function NoLangDirMessage(langDir: string): string {
    "The language directory '" + langDir + "' doesn't exist"
  }

  function InvalidLangFileMessage(name: string, ext: string): string {
    "Invalid language resource name '" + name + "', e.g. 'zh-HK'" + ext
      + " .https://www.unicode.org/reports/tr35/#Unicode_Language_and_Locale_Identifiers"
  }

  function ReadLangFileMessage(name: string, cause: string): string {
    "Reading language resource file '" + name + "' failed: " + cause
  }

  function NoDefaultTableMessage(defaultTag: string): string {
    "The default language resource file '" + defaultTag + ".json' not found"
  }

  /** A directory entry loads without error: it is skipped, or its tag is valid and its content decodes. */
  predicate LangFileOk(langDir: string, name: string, h: ConfigHelpers) {
    !HasSuffix(name, h.langFileExt)
    || (h.validTag(h.trimEnd(name, h.langFileExt)) && h.loadLangFile(h.join(langDir, name)).Ok?)
  }

  /** The error a directory entry that does not load raises. */
  function LangFileError(langDir: string, name: string, h: ConfigHelpers): string
    requires !LangFileOk(langDir, name, h)
  {
    if !h.validTag(h.trimEnd(name, h.langFileExt)) then InvalidLangFileMessage(name, h.langFileExt)
    else ReadLangFileMessage(name, h.loadLangFile(h.join(langDir, name)).error)
  }

  /**
   * The locale tables built from the directory entries `names`, taken in order,
   * and the error of the first entry that fails (the tables then hold what was
   * loaded before it).
   */
  function LoadLangFiles(langDir: string, names: seq<string>, h: ConfigHelpers): (map<string, map<string, string>>, Option<string>)
    decreases |names|
  {
    if names == [] then (map[], None)
    else
      var prev := LoadLangFiles(langDir, names[..|names| - 1], h);
      var name := names[|names| - 1];
      if prev.1.Some? || !HasSuffix(name, h.langFileExt) then prev
      else if !LangFileOk(langDir, name, h) then (prev.0, Some(LangFileError(langDir, name, h)))
      else
        var tag := h.trimEnd(name, h.langFileExt);
        (prev.0[tag := h.loadLangFile(h.join(langDir, name)).value], None)
  }

  /** Loading succeeds exactly when every entry loads; otherwise the error is that of the first failing entry. */
  lemma {:induction false} LoadLangFilesError(langDir: string, names: seq<string>, h: ConfigHelpers)
    ensures var err := LoadLangFiles(langDir, names, h).1;
            (err.None? <==> forall i :: 0 <= i < |names| ==> LangFileOk(langDir, names[i], h))
            && (err.Some? ==> exists i :: 0 <= i < |names| && !LangFileOk(langDir, names[i], h)
                                          && (forall j :: 0 <= j < i ==> LangFileOk(langDir, names[j], h))
                                          && err.value == LangFileError(langDir, names[i], h))
    decreases |names|
  {
    if names != [] {
      var init := names[..|names| - 1];
      LoadLangFilesError(langDir, init, h);
      assert forall i :: 0 <= i < |init| ==> init[i] == names[i];
    }
  }

  /** After a successful load, the tables are keyed by the trimmed names of the entries with the resource extension. */
  lemma {:induction false} LoadLangFilesKeys(langDir: string, names: seq<string>, h: ConfigHelpers, tag: string)
    requires LoadLangFiles(langDir, names, h).1.None?
    ensures tag in LoadLangFiles(langDir, names, h).0 <==>
            exists i :: 0 <= i < |names| && HasSuffix(names[i], h.langFileExt) && h.trimEnd(names[i], h.langFileExt) == tag
    decreases |names|
  {
    if names != [] {
      var init := names[..|names| - 1];
      LoadLangFilesKeys(langDir, init, h, tag);
      assert forall i :: 0 <= i < |init| ==> init[i] == names[i];
    }
  }

  /**
   * After a successful load, the table under an entry's tag is the decoded
   * content of that entry's file, unless a later entry has the same tag.
   */
  lemma {:induction false} LoadLangFilesValue(langDir: string, names: seq<string>, h: ConfigHelpers, i: int)
    requires LoadLangFiles(langDir, names, h).1.None?
    requires 0 <= i < |names| && HasSuffix(names[i], h.langFileExt)
    requires forall j :: i < j < |names| && HasSuffix(names[j], h.langFileExt) ==>
               h.trimEnd(names[j], h.langFileExt) != h.trimEnd(names[i], h.langFileExt)
    ensures h.trimEnd(names[i], h.langFileExt) in LoadLangFiles(langDir, names, h).0
    ensures h.loadLangFile(h.join(langDir, names[i])).Ok?
    ensures LoadLangFiles(langDir, names, h).0[h.trimEnd(names[i], h.langFileExt)]
            == h.loadLangFile(h.join(langDir, names[i])).value
    decreases |names|
  {
    var n := |names| - 1;
    var init := names[..n];
    assert LoadLangFiles(langDir, init, h).1.None?;
    if i < n {
      assert init[i] == names[i];
      forall j | i < j < |init| && HasSuffix(init[j], h.langFileExt)
        ensures h.trimEnd(init[j], h.langFileExt) != h.trimEnd(init[i], h.langFileExt)
      {
        assert init[j] == names[j];
      }
      LoadLangFilesValue(langDir, init, h, i);
    }
  }

  /** Once an entry has failed, the entries after it change nothing. */
  lemma {:induction false} LoadLangFilesStops(langDir: string, names: seq<string>, k: nat, h: ConfigHelpers)
    requires k <= |names|
    requires LoadLangFiles(langDir, names[..k], h).1.Some?
    ensures LoadLangFiles(langDir, names, h) == LoadLangFiles(langDir, names[..k], h)
    decreases |names|
  {
    if k < |names| {
      assert names[..|names| - 1][..k] == names[..k];
      LoadLangFilesStops(langDir, names[..|names| - 1], k, h);
    } else {
      assert names[..k] == names;
    }
  }

  /** The locale check and loading applied to the merged configuration `v`. */
  function CheckLang(v: Config, dirs: map<string, DirListing>, h: ConfigHelpers): (Config, Option<string>) {
    if v.lang.dir == "" then (v, None)
    else if v.lang.defaultTag == "" then (v, Some(NoDefaultLangMessage))
    else
      var langDir := h.join(v.root, v.lang.dir);
      if langDir !in dirs then (v, Some(NoLangDirMessage(langDir)))
      else match dirs[langDir]
        case Unlistable(msg) => (v.(strs := map[]), Some(msg))
        case Entries(names) =>
          var (strs, err) := LoadLangFiles(langDir, names, h);
          if err.Some? then (v.(strs := strs), err)
          else if !v.lang.keyAsValue && v.lang.defaultTag !in strs then
            (v.(strs := strs), Some(NoDefaultTableMessage(v.lang.defaultTag)))
          else (v.(strs := strs), None)
  }

  /** The configuration after the descriptor and the named environment, before the locale check. */
  function Merge(env: string, v: Config, h: ConfigHelpers): (Config, Option<string>) {
    if v.envs.Some? && env != "" then
      if env !in v.envs.value then (v, Some(NoEnvironmentMessage(env)))
      else h.replaceFieldIND(v, v.envs.value[env])
    else (v, None)
  }

  /** What LoadConfig returns: the configuration and the error, if any. */
  function Load(env: string, root: string, port: int, source: ConfigSource,
                dirs: map<string, DirListing>, h: ConfigHelpers): (Config, Option<string>)
  {
    var d := Defaults(env, root, port);
    match source
    case Missing => (d, None)
    case ReadFailed(msg) => (d, Some(msg))
    case Malformed(msg) => (d, Some(msg))
    case Parsed(f) =>
      var (v, err) := Merge(env, Overlay(d, f), h);
      if err.Some? then (v, err) else CheckLang(v, dirs, h)
  }

  /** LoadConfig: builds the configuration step by step, stopping at the first error. */
  method LoadConfig(env: string, root: string, port: int, source: ConfigSource,
                    dirs: map<string, DirListing>, h: ConfigHelpers)
    returns (v: Config, err: Option<string>)
    ensures (v, err) == Load(env, root, port, source, dirs, h)
  {
    v := Defaults(env, root, port);
    err := None;

    var f: ConfigFile;
    match source {
      case Missing => return;
      case ReadFailed(msg) => err := Some(msg); return;
      case Malformed(msg) => err := Some(msg); return;
      case Parsed(file) => f := file;
    }
    v := Overlay(v, f);

    // environment override
    if v.envs.Some? && env != "" {
      if env !in v.envs.value {
        err := Some(NoEnvironmentMessage(env));
        return;
      }
      var v1 := v.envs.value[env];
      var replaced := h.replaceFieldIND(v, v1);
      v := replaced.0;
      if replaced.1.Some? {
        err := replaced.1;
        return;
      }
    }
    // locale check and loading
    if v.lang.dir != "" {
      if v.lang.defaultTag == "" {
        err := Some(NoDefaultLangMessage);
        return;
      }
      var langDir := h.join(v.root, v.lang.dir);
      if langDir !in dirs {
        err := Some(NoLangDirMessage(langDir));
        return;
      }
      v := v.(strs := map[]);
      var names: seq<string>;
      match dirs[langDir] {
        case Unlistable(msg) => err := Some(msg); return;
        case Entries(ns) => names := ns;
      }
      var strs, e := LoadLangTables(langDir, names, h);
      v := v.(strs := strs);
      if e.Some? {
        err := e;
        return;
      }
      if !v.lang.keyAsValue && v.lang.defaultTag !in v.strs {
        err := Some(NoDefaultTableMessage(v.lang.defaultTag));
        return;
      }
    }
  }

  /** The loop of LoadConfig over the entries of the locale directory, stopping at the first failing entry. */
  method LoadLangTables(langDir: string, names: seq<string>, h: ConfigHelpers)
    returns (strs: map<string, map<string, string>>, err: Option<string>)
    ensures (strs, err) == LoadLangFiles(langDir, names, h)
  {
    strs, err := map[], None;
    var i := 0;
    while i < |names|
      invariant 0 <= i <= |names|
      invariant LoadLangFiles(langDir, names[..i], h) == (strs, None)
    {
      var name := names[i];
      assert names[..i + 1][..i] == names[..i];
      if !HasSuffix(name, h.langFileExt) {
        i := i + 1;
        continue;
      }
      var lang := h.trimEnd(name, h.langFileExt);
      if !h.validTag(lang) {
        err := Some(InvalidLangFileMessage(name, h.langFileExt));
        LoadLangFilesStops(langDir, names, i + 1, h);
        return;
      }
      var m := h.loadLangFile(h.join(langDir, name));
      if m.Err? {
        err := Some(ReadLangFileMessage(name, m.error));
        LoadLangFilesStops(langDir, names, i + 1, h);
        return;
      }
      strs := strs[lang := m.value];
      i := i + 1;
    }
    assert names[..i] == names;
  }

  /** Without a descriptor file the defaults are returned, with no error. */
  lemma LoadWithoutDescriptor(env: string, root: string, port: int, dirs: map<string, DirListing>, h: ConfigHelpers)
    ensures var (c, err) := Load(env, root, port, Missing, dirs, h);
            && err == None
            && c.host == "0.0.0.0" && c.port == port && c.root == root && c.env == env
            && c.internalBlackList == ["/gte.config.json"] && c.apiServer == "http://localhost"
            && c.routes == [] && c.blackList == [] && c.envs == None
            && c.notFoundPage == "" && c.lang == LangSetup("", "", false) && c.strs == map[]
  {
    assert "/" + ConfigFileName == "/gte.config.json";
  }

  /** A descriptor the decoder rejects is an error. */
  lemma MalformedDescriptorFails(env: string, root: string, port: int, msg: string,
                                 dirs: map<string, DirListing>, h: ConfigHelpers)
    ensures Load(env, root, port, Malformed(msg), dirs, h).1 == Some(msg)
  {
  }

  /** Naming an environment the descriptor's `envs` does not declare is an error. */
  lemma UnknownEnvironmentFails(env: string, root: string, port: int, f: ConfigFile,
                                dirs: map<string, DirListing>, h: ConfigHelpers)
    requires f.envs.Some? && env != "" && env !in f.envs.value
    ensures Load(env, root, port, Parsed(f), dirs, h).1 == Some(NoEnvironmentMessage(env))
  {
  }

  /** The override merge runs only when the descriptor declares `envs` and an environment is named. */
  lemma OverrideNeedsNamedEnvironment(env: string, root: string, port: int, f: ConfigFile,
                                      dirs: map<string, DirListing>, h: ConfigHelpers,
                                      other: (Config, Config) -> (Config, Option<string>))
    requires f.envs.None? || env == ""
    ensures Load(env, root, port, Parsed(f), dirs, h)
            == Load(env, root, port, Parsed(f), dirs, h.(replaceFieldIND := other))
  {
    var v := Overlay(Defaults(env, root, port), f);
    if v.lang.dir != "" && v.lang.defaultTag != "" {
      var langDir := h.join(v.root, v.lang.dir);
      if langDir in dirs && dirs[langDir].Entries? {
        LoadLangFilesIgnoresMerge(langDir, dirs[langDir].names, h, other);
      }
    }
  }

  lemma {:induction false} LoadLangFilesIgnoresMerge(langDir: string, names: seq<string>, h: ConfigHelpers,
                                                     other: (Config, Config) -> (Config, Option<string>))
    ensures LoadLangFiles(langDir, names, h) == LoadLangFiles(langDir, names, h.(replaceFieldIND := other))
    decreases |names|
  {
    if names != [] {
      LoadLangFilesIgnoresMerge(langDir, names[..|names| - 1], h, other);
    }
  }

  /** A locale directory without a default locale is an error. */
  lemma LangDirNeedsDefault(env: string, root: string, port: int, f: ConfigFile,
                            dirs: map<string, DirListing>, h: ConfigHelpers)
    requires var (v, err) := Merge(env, Overlay(Defaults(env, root, port), f), h);
             err.None? && v.lang.dir != "" && v.lang.defaultTag == ""
    ensures Load(env, root, port, Parsed(f), dirs, h).1 == Some(NoDefaultLangMessage)
  {
  }

  /** A locale directory that does not exist is an error naming it. */
  lemma LangDirMustExist(env: string, root: string, port: int, f: ConfigFile,
                         dirs: map<string, DirListing>, h: ConfigHelpers)
    requires var (v, err) := Merge(env, Overlay(Defaults(env, root, port), f), h);
             err.None? && v.lang.dir != "" && v.lang.defaultTag != "" && h.join(v.root, v.lang.dir) !in dirs
    ensures var v := Merge(env, Overlay(Defaults(env, root, port), f), h).0;
            Load(env, root, port, Parsed(f), dirs, h).1 == Some(NoLangDirMessage(h.join(v.root, v.lang.dir)))
  {
  }

  /**
   * Once every locale file has loaded, loading succeeds exactly when key-as-value
   * fallback is on or some resource file's trimmed name is the default tag.
   */
  lemma DefaultTableRequired(env: string, root: string, port: int, f: ConfigFile,
                             dirs: map<string, DirListing>, h: ConfigHelpers, names: seq<string>)
    requires var (v, err) := Merge(env, Overlay(Defaults(env, root, port), f), h);
             && err.None? && v.lang.dir != "" && v.lang.defaultTag != ""
             && h.join(v.root, v.lang.dir) in dirs && dirs[h.join(v.root, v.lang.dir)] == Entries(names)
             && forall i :: 0 <= i < |names| ==> LangFileOk(h.join(v.root, v.lang.dir), names[i], h)
    ensures var v := Merge(env, Overlay(Defaults(env, root, port), f), h).0;
            Load(env, root, port, Parsed(f), dirs, h).1.None? <==>
              v.lang.keyAsValue
              || exists i :: 0 <= i < |names| && HasSuffix(names[i], h.langFileExt)
                             && h.trimEnd(names[i], h.langFileExt) == v.lang.defaultTag
  {
    var v := Merge(env, Overlay(Defaults(env, root, port), f), h).0;
    var langDir := h.join(v.root, v.lang.dir);
    LoadLangFilesError(langDir, names, h);
    LoadLangFilesKeys(langDir, names, h, v.lang.defaultTag);
  }

  /**
   * A configuration loaded without error that names a locale directory has a
   * default locale, an existing directory, and a table for the default locale
   * unless key-as-value fallback is on.
   */
  lemma LoadedLocaleInvariant(env: string, root: string, port: int, source: ConfigSource,
                              dirs: map<string, DirListing>, h: ConfigHelpers)
    requires Load(env, root, port, source, dirs, h).1.None?
    ensures var c := Load(env, root, port, source, dirs, h).0;
            c.lang.dir != "" ==>
              && c.lang.defaultTag != ""
              && h.join(c.root, c.lang.dir) in dirs
              && (c.lang.keyAsValue || c.lang.defaultTag in c.strs)
  {
  }
}
