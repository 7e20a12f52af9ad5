/** `normalizeConfig` (lib/config.ts): the configuration read from the
    repository's `.pages.yml` is brought into one canonical shape before the
    rest of the application reads it. It is a total function of the parsed
    value: the source edits a deep copy, so the input is never changed, which
    a function over values expresses by construction.

    JavaScript raises a TypeError on a few malformed shapes (a `null` array
    element, `.replace` on a non-string path, a property assignment on a
    primitive content entry); the model returns `Throws` there. */
module Config {
  import opened Common
  import opened Json

  /** `extensionCategories` from lib/utils/file (not part of this model):
      category name to the file extensions it stands for. */
  type ExtensionCategories = map<string, seq<string>>

  /** `getFileExtension` from lib/utils/file (not part of this model). Its
      argument may be `undefined` (None) and so may its result. */
  type FileExtensionOf = Option<Json> -> Option<Json>

  const MainRepositoryName := "Main Repository"
  const MainMediaName := "Main Media"
  const DefaultCollectionFilename := "{year}-{month}-{day}-{primary}.md"
  const CodeExtensions: seq<string> :=
    ["yaml", "yml", "javascript", "js", "jsx", "typescript", "ts", "tsx", "json", "html", "htm", "markdown", "md", "mdx"]
  const Formats: set<string> := {"json", "toml", "yaml", "yaml-frontmatter", "code", "datagrid", "raw"}

  /** Property read on an object's fields; `undefined` is None. */
  function Field(f: map<string, Json>, key: string): Option<Json> {
    if key in f then Some(f[key]) else None
  }

  // ---------------------------------------------------------------------
  // Paths

  /** `s.replace(/^\/|\/$/g, "")`: one leading and one trailing slash go. */
  function StripEdgeSlashes(s: string): string {
    var a := if s != [] && s[0] == '/' then s[1..] else s;
    if a != [] && a[|a| - 1] == '/' then a[..|a| - 1] else a
  }

  /** `s.replace(/\/$/, "")`: one trailing slash goes. */
  function StripTrailingSlash(s: string): string {
    if s != [] && s[|s| - 1] == '/' then s[..|s| - 1] else s
  }

  /** At most one slash goes at each end, and what is left can only start
      (end) with a slash when the path started (ended) with two. */
  lemma StripEdgeSlashesRemovesOneEach(s: string)
    ensures var r := StripEdgeSlashes(s);
      && |s| - 2 <= |r| <= |s|
      && (r != [] && r[0] == '/' ==> StartsWith(s, "//"))
      && (r != [] && r[|r| - 1] == '/' ==> EndsWith(s, "//"))
      && (!StartsWith(s, "/") && !EndsWith(s, "/") ==> r == s)
  {
    var r := StripEdgeSlashes(s);
    var lead := if s != [] && s[0] == '/' then 1 else 0;
    var a := s[lead..];
    var trail := if a != [] && a[|a| - 1] == '/' then 1 else 0;
    assert r == s[lead..|s| - trail];
    if r != [] && r[0] == '/' {
      assert s[0] == '/' && s[1] == '/';
      assert s[..2] == "//";
    }
    if r != [] && r[|r| - 1] == '/' {
      assert s[|s| - 1] == '/';
      assert s[|s| - 2..] == "//";
    }
  }

  /** Round trip: wrapping a path in slashes and stripping gives it back. */
  lemma StripEdgeSlashesRoundTrip(t: string)
    ensures StripEdgeSlashes("/" + t + "/") == t
  {
    var w := "/" + t + "/";
    assert w[1..] == t + "/";
    assert (t + "/")[..|t|] == t;
  }

  /** A path with no slash at either end is left alone. */
  lemma StripEdgeSlashesKeepsClean(t: string)
    requires t == [] || (t[0] != '/' && t[|t| - 1] != '/')
    ensures StripEdgeSlashes(t) == t
  {
  }

  // ---------------------------------------------------------------------
  // `Array.prototype.map` with a callback that may throw

  function MapOutcome(items: seq<Json>, f: Json -> Outcome<Json>): (r: Outcome<seq<Json>>)
    ensures r.Done? ==> |r.value| == |items| && forall i :: 0 <= i < |items| ==> f(items[i]) == Done(r.value[i])
    ensures r.Throws? ==> exists i :: 0 <= i < |items| && f(items[i]).Throws?
    ensures (forall i :: 0 <= i < |items| ==> f(items[i]).Done?) ==> r.Done?
  {
    if items == [] then Done([])
    else
      var head :- f(items[0]);
      var tail :- MapOutcome(items[1..], f);
      Done([head] + tail)
  }

  // ---------------------------------------------------------------------
  // Repositories (lib/config.ts:29-57)

  /** The `.map` callback: a truthy path other than "/" loses its edge slashes. */
  function NormalizeRepository(r: Json): Outcome<Json> {
    match r
    case JNull => Throws
    case JObj(f) =>
      if "path" in f && Truthy(f["path"]) && f["path"] != JStr("/") then
        if f["path"].JStr? then Done(JObj(f["path" := JStr(StripEdgeSlashes(f["path"].s))])) else Throws
      else Done(r)
    case _ => Done(r)
  }

  /** `repo.path === "/" || repo.path === ""`. */
  predicate IsMainEntry(r: Json) {
    Get(r, "path") == Some(JStr("/")) || Get(r, "path") == Some(JStr(""))
  }

  predicate HasMainRepository(repos: seq<Json>) {
    exists i :: 0 <= i < |repos| && IsMainEntry(repos[i])
  }

  function MainRepository(owner: Json, repo: Json): Json {
    JObj(map["name" := JStr(MainRepositoryName), "repo" := repo, "owner" := owner, "path" := JStr("/")])
  }

  predicate HasOwnerAndRepo(cfg: map<string, Json>) {
    TruthyOpt(Field(cfg, "owner")) && TruthyOpt(Field(cfg, "repo"))
  }

  function NormalizeRepositories(cfg: map<string, Json>): (r: Outcome<map<string, Json>>)
    ensures r.Done? ==> forall k :: k != "repositories" ==> Field(r.value, k) == Field(cfg, k)
    ensures r.Done? && "repositories" in cfg ==> "repositories" in r.value
  {
    if "repositories" in cfg && cfg["repositories"].JArr? then
      var mapped :- MapOutcome(cfg["repositories"].items, NormalizeRepository);
      var repos :=
        if !HasMainRepository(mapped) && HasOwnerAndRepo(cfg)
        then [MainRepository(cfg["owner"], cfg["repo"])] + mapped
        else mapped;
      Done(cfg["repositories" := JArr(repos)])
    else if HasOwnerAndRepo(cfg) then
      Done(cfg["repositories" := JArr([MainRepository(cfg["owner"], cfg["repo"])])])
    else
      Done(cfg)
  }

  // ---------------------------------------------------------------------
  // Media (lib/config.ts:59-133)

  /** The extensions one category contributes; the category is looked up by
      its string form, as a JavaScript property key is. */
  function ExtensionsOf(category: Json, known: ExtensionCategories): seq<Json> {
    var key := ToJsString(category);
    if key in known then seq(|known[key]|, i requires 0 <= i < |known[key]| => JStr(known[key][i])) else []
  }

  /** The `forEach`/`concat` accumulation over the categories, in order. */
  function ExpandCategories(cats: seq<Json>, known: ExtensionCategories): seq<Json>
    decreases |cats|
  {
    if cats == [] then [] else ExpandCategories(cats[..|cats| - 1], known) + ExtensionsOf(cats[|cats| - 1], known)
  }

  /** The categories loop as the source writes it: start from `[]` and
      concatenate each known category's extensions in turn. */
  method ExpandCategoriesLoop(cats: seq<Json>, known: ExtensionCategories) returns (extensions: seq<Json>)
    ensures extensions == ExpandCategories(cats, known)
  {
    extensions := [];
    for i := 0 to |cats|
      invariant extensions == ExpandCategories(cats[..i], known)
    {
      var key := ToJsString(cats[i]);
      if key in known {
        extensions := extensions + seq(|known[key]|, j requires 0 <= j < |known[key]| => JStr(known[key][j]));
      }
      assert cats[..i + 1][..i] == cats[..i];
    }
    assert cats[..|cats|] == cats;
  }

  /** One category appended at the end contributes its own extensions. */
  lemma ExpandCategoriesSnoc(cats: seq<Json>, c: Json, known: ExtensionCategories)
    ensures ExpandCategories(cats + [c], known) == ExpandCategories(cats, known) + ExtensionsOf(c, known)
  {
    assert (cats + [c])[..|cats + [c]| - 1] == cats;
    assert (cats + [c])[|cats + [c]| - 1] == c;
  }

  /** One step of the induction below: the statement for `b + [c]`
      follows from the statement for `b`. */
  lemma ExpandCategoriesAppendStep(a: seq<Json>, b: seq<Json>, c: Json, known: ExtensionCategories)
    requires ExpandCategories(a + b, known) == ExpandCategories(a, known) + ExpandCategories(b, known)
    ensures ExpandCategories(a + (b + [c]), known) == ExpandCategories(a, known) + ExpandCategories(b + [c], known)
  {
    ConcatAssoc(a, b, [c]);
    ExpandCategoriesSnoc(a + b, c, known);
    ExpandCategoriesSnoc(b, c, known);
    ConcatAssoc(ExpandCategories(a, known), ExpandCategories(b, known), ExtensionsOf(c, known));
  }

  /** Concatenation distributes over the category list. */
  lemma {:induction false} ExpandCategoriesAppend(a: seq<Json>, b: seq<Json>, known: ExtensionCategories)
    ensures ExpandCategories(a + b, known) == ExpandCategories(a, known) + ExpandCategories(b, known)
    decreases |b|
  {
    if b == [] {
      assert a + b == a;
      assert ExpandCategories(b, known) == [];
    } else {
      var b', c := b[..|b| - 1], b[|b| - 1];
      assert b == b' + [c];
      ExpandCategoriesAppend(a, b', known);
      ExpandCategoriesAppendStep(a, b', c, known);
    }
  }

  /** A category that `extensionCategories` does not know contributes nothing. */
  lemma UnknownCategoryIgnored(a: seq<Json>, c: Json, b: seq<Json>, known: ExtensionCategories)
    requires ToJsString(c) !in known
    ensures ExpandCategories(a + [c] + b, known) == ExpandCategories(a + b, known)
  {
    assert ExtensionsOf(c, known) == [];
    ExpandCategoriesSnoc(a, c, known);
    assert ExpandCategories(a + [c], known) == ExpandCategories(a, known);
    ExpandCategoriesAppend(a + [c], b, known);
    ExpandCategoriesAppend(a, b, known);
  }

  /** Lines 83-95 and 114-126: existing extensions win and the categories
      go; otherwise an array of categories becomes the extensions list. */
  function ConvertCategories(f: map<string, Json>, known: ExtensionCategories): map<string, Json> {
    if "categories" in f && !f["categories"].JNull? then
      if "extensions" in f && !f["extensions"].JNull? then f - {"categories"}
      else if f["categories"].JArr? then
        (f - {"categories"})["extensions" := JArr(ExpandCategories(f["categories"].items, known))]
      else f
    else f
  }

  lemma ConvertCategoriesSpec(f: map<string, Json>, known: ExtensionCategories)
    requires "categories" in f && f["categories"].JArr?
    ensures var g := ConvertCategories(f, known);
      && "categories" !in g
      && (Nullish(Field(f, "extensions"))
          ==> g["extensions"] == JArr(ExpandCategories(f["categories"].items, known)))
      && (!Nullish(Field(f, "extensions")) ==> Field(g, "extensions") == Field(f, "extensions"))
      && forall k :: k != "categories" && k != "extensions" ==> Field(g, k) == Field(f, k)
  {
  }

  /** One element of an array-valued `media`. */
  function NormalizeMediaItem(m: Json, known: ExtensionCategories): Outcome<Json> {
    match m
    case JNull => Throws
    case JObj(f) =>
      var f1 :-
        if "input" in f && Truthy(f["input"]) then
          if f["input"].JStr? then Done(f["input" := JStr(StripEdgeSlashes(f["input"].s))]) else Throws
        else Done(f);
      var f2 :-
        if "output" in f1 && Truthy(f1["output"]) && f1["output"] != JStr("/") then
          if f1["output"].JStr? then Done(f1["output" := JStr(StripTrailingSlash(f1["output"].s))]) else Throws
        else Done(f1);
      Done(JObj(ConvertCategories(f2, known)))
    case _ => Done(m)
  }

  /** The legacy single-object form, spread into a one-element array whose
      `name` defaults to "Main Media". Spreading a number or a boolean
      yields no properties. */
  function NormalizeLegacyMedia(media: Json, known: ExtensionCategories): Json {
    var f0 := if media.JObj? then media.fields else map[];
    var f1 := if "input" in f0 && f0["input"].JStr? then f0["input" := JStr(StripEdgeSlashes(f0["input"].s))] else f0;
    var f2 :=
      if "output" in f1 && f1["output"] != JStr("/") && f1["output"].JStr?
      then f1["output" := JStr(StripTrailingSlash(f1["output"].s))]
      else f1;
    JObj(map["name" := JStr(MainMediaName)] + ConvertCategories(f2, known))
  }

  function MainMedia(path: string): Json {
    var relative := StripEdgeSlashes(path);
    JObj(map["name" := JStr(MainMediaName), "input" := JStr(relative), "output" := JStr("/" + relative)])
  }

  function NormalizeMedia(cfg: map<string, Json>, known: ExtensionCategories): (r: Outcome<map<string, Json>>)
    ensures r.Done? ==> forall k :: k != "media" ==> Field(r.value, k) == Field(cfg, k)
    ensures r.Done? ==> ("media" in r.value <==> "media" in cfg)
    ensures r.Done? && "media" in cfg && !cfg["media"].JNull? ==> r.value["media"].JArr?
  {
    if "media" in cfg && !cfg["media"].JNull? then
      var media := cfg["media"];
      match media
      case JStr(s) => Done(cfg["media" := JArr([MainMedia(s)])])
      case JArr(items) =>
        var mapped :- MapOutcome(items, m => NormalizeMediaItem(m, known));
        Done(cfg["media" := JArr(mapped)])
      case _ => Done(cfg["media" := JArr([NormalizeLegacyMedia(media, known)])])
    else
      Done(cfg)
  }

  // ---------------------------------------------------------------------
  // Content (lib/config.ts:135-190)

  /** `x?.length > 0` for the shapes JSON can hold: arrays and strings by
      their length, objects by a numeric `length` member. */
  predicate HasLength(o: Option<Json>) {
    o.Some? &&
    match o.value
    case JArr(items) => |items| > 0
    case JStr(s) => |s| > 0
    case JObj(g) => "length" in g && g["length"].JNum? && g["length"].n > 0
    case _ => false
  }

  /** Lines 155-181, for an entry without a `format`. */
  function InferFormat(fields: Option<Json>, extension: Option<Json>): string {
    if HasLength(fields) then
      if extension == Some(JStr("json")) then "json"
      else if extension == Some(JStr("toml")) then "toml"
      else if extension == Some(JStr("yaml")) || extension == Some(JStr("yml")) then "yaml"
      else "yaml-frontmatter"
    else if extension.Some? && extension.value.JStr? && extension.value.s in CodeExtensions then "code"
    else if extension == Some(JStr("csv")) then "datagrid"
    else "raw"
  }

  /** The format inferred is one of the seven the editor knows; entries with
      fields get a structured format, entries without get a file-level one. */
  lemma InferFormatClassifies(fields: Option<Json>, extension: Option<Json>)
    ensures InferFormat(fields, extension) in Formats
    ensures HasLength(fields) ==> InferFormat(fields, extension) in {"json", "toml", "yaml", "yaml-frontmatter"}
    ensures !HasLength(fields) ==> InferFormat(fields, extension) in {"code", "datagrid", "raw"}
    ensures HasLength(fields) ==> (InferFormat(fields, extension) == "json" <==> extension == Some(JStr("json")))
    ensures HasLength(fields) ==> (InferFormat(fields, extension) == "toml" <==> extension == Some(JStr("toml")))
    ensures HasLength(fields) ==>
      (InferFormat(fields, extension) == "yaml" <==> extension == Some(JStr("yaml")) || extension == Some(JStr("yml")))
    ensures !HasLength(fields) ==>
      (InferFormat(fields, extension) == "code" <==> extension.Some? && extension.value.JStr? && extension.value.s in CodeExtensions)
    ensures !HasLength(fields) ==> (InferFormat(fields, extension) == "datagrid" <==> extension == Some(JStr("csv")))
  {
  }

  /** `configObjectCopy.repositories[0].name`, reached when the
      repositories value has a positive length. */
  function FirstRepositoryName(repositories: Json): Outcome<Option<Json>> {
    match repositories
    case JArr(items) =>
      if items == [] || items[0].JNull? then Throws else Done(Get(items[0], "name"))
    case JObj(g) =>
      if "0" !in g || g["0"].JNull? then Throws else Done(Get(g["0"], "name"))
    case _ => Done(None)
  }

  /** Line 139: a non-null path loses its edge slashes (a non-string one
      has no `replace` and throws). */
  function ContentPath(f: map<string, Json>): (r: Outcome<map<string, Json>>)
    ensures r.Throws? <==> !Nullish(Field(f, "path")) && !f["path"].JStr?
    ensures r.Done? ==> forall k :: k != "path" ==> Field(r.value, k) == Field(f, k)
    ensures r.Done? && Nullish(Field(f, "path")) ==> r.value == f
  {
    if !Nullish(Field(f, "path")) then
      if f["path"].JStr? then Done(f["path" := JStr(StripEdgeSlashes(f["path"].s))]) else Throws
    else Done(f)
  }

  /** Lines 143-146: a collection without a filename gets the dated default. */
  function ContentFilename(f: map<string, Json>): (r: map<string, Json>)
    ensures forall k :: k != "filename" ==> Field(r, k) == Field(f, k)
    ensures !(Nullish(Field(f, "filename")) && Field(f, "type") == Some(JStr("collection"))) ==> r == f
    ensures Nullish(Field(f, "filename")) && Field(f, "type") == Some(JStr("collection"))
      ==> Field(r, "filename") == Some(JStr(DefaultCollectionFilename))
  {
    if Nullish(Field(f, "filename")) && Field(f, "type") == Some(JStr("collection"))
    then f["filename" := JStr(DefaultCollectionFilename)]
    else f
  }

  /** Lines 148-152: a missing extension is taken from the file's path (for
      a single file) or from its filename pattern (for a collection). */
  function ContentExtension(f: map<string, Json>, fileExtension: FileExtensionOf): (r: map<string, Json>)
    ensures forall k :: k != "extension" ==> Field(r, k) == Field(f, k)
    ensures !Nullish(Field(f, "extension")) ==> r == f
    ensures Nullish(Field(f, "extension")) ==>
      Field(r, "extension")
        == fileExtension(if Field(f, "type") == Some(JStr("file")) then Field(f, "path") else Field(f, "filename"))
  {
    if Nullish(Field(f, "extension"))
    then Assign(f, "extension",
                fileExtension(if Field(f, "type") == Some(JStr("file")) then Field(f, "path") else Field(f, "filename")))
    else f
  }

  /** Lines 154-181: a missing format is inferred and stored. */
  function ContentFormat(f: map<string, Json>): (r: map<string, Json>)
    ensures forall k :: k != "format" ==> Field(r, k) == Field(f, k)
    ensures !Nullish(Field(f, "format")) ==> r == f
    ensures Nullish(Field(f, "format")) ==>
      Field(r, "format") == Some(JStr(InferFormat(Field(f, "fields"), Field(f, "extension"))))
  {
    if Nullish(Field(f, "format"))
    then f["format" := JStr(InferFormat(Field(f, "fields"), Field(f, "extension")))]
    else f
  }

  /** Lines 184-186: an entry without a truthy repository gets the first
      repository's name. */
  function ContentRepository(f: map<string, Json>, repositories: Option<Json>): (r: Outcome<map<string, Json>>)
    ensures r.Done? ==> forall k :: k != "repository" ==> Field(r.value, k) == Field(f, k)
    ensures TruthyOpt(Field(f, "repository")) || !HasLength(repositories) ==> r == Done(f)
    ensures r.Done? && !TruthyOpt(Field(f, "repository")) && repositories.Some? && repositories.value.JArr?
      && |repositories.value.items| > 0
      ==> Field(r.value, "repository") == Get(repositories.value.items[0], "name")
  {
    if !TruthyOpt(Field(f, "repository")) && HasLength(repositories) then
      var name :- FirstRepositoryName(repositories.value);
      Done(Assign(f, "repository", name))
    else
      Done(f)
  }

  /** One element of the `content` array. An array keeps its JSON value
      (named properties set on it are not part of that value), but it has no
      `repository`, so line 185 still reads `repositories[0].name` when the
      repositories value has a positive length; other primitives throw on
      the first assignment. */
  function NormalizeContentItem(item: Json, repositories: Option<Json>, fileExtension: FileExtensionOf): Outcome<Json> {
    match item
    case JNull => Throws
    case JArr(_) =>
      if HasLength(repositories) then
        var _ :- FirstRepositoryName(repositories.value);
        Done(item)
      else Done(item)
    case JObj(f0) =>
      var f1 :- ContentPath(f0);
      var f4 := ContentFormat(ContentExtension(ContentFilename(f1), fileExtension));
      var f5 :- ContentRepository(f4, repositories);
      Done(JObj(f5))
    case _ => Throws
  }

  function NormalizeContent(cfg: map<string, Json>, fileExtension: FileExtensionOf): (r: Outcome<map<string, Json>>)
    ensures r.Done? ==> forall k :: k != "content" ==> Field(r.value, k) == Field(cfg, k)
    ensures r.Done? ==> ("content" in r.value <==> "content" in cfg)
  {
    if "content" in cfg && cfg["content"].JArr? && |cfg["content"].items| > 0 then
      var repositories := Field(cfg, "repositories");
      var mapped :- MapOutcome(cfg["content"].items, item => NormalizeContentItem(item, repositories, fileExtension));
      Done(cfg["content" := JArr(mapped)])
    else
      Done(cfg)
  }

  /** An array entry is kept as it is, unless reading the first
      repository's name throws. */
  lemma ArrayEntryReadsFirstRepository(items: seq<Json>, repositories: Option<Json>, fileExtension: FileExtensionOf)
    ensures var r := NormalizeContentItem(JArr(items), repositories, fileExtension);
      (r.Throws? <==> HasLength(repositories) && FirstRepositoryName(repositories.value).Throws?)
      && (r.Done? ==> r.value == JArr(items))
  {
  }

  // ---------------------------------------------------------------------
  // The whole normaliser (lib/config.ts:24-193)

  function NormalizeConfig(input: Json, known: ExtensionCategories, fileExtension: FileExtensionOf): (r: Outcome<Json>)
    ensures !Truthy(input) ==> r == Done(JObj(map[]))
    ensures Truthy(input) && !input.JObj? ==> r == Done(input)
    ensures input.JObj? && r.Done? ==> r.value.JObj?
    ensures input.JObj? && r.Done? ==>
      forall k :: k != "repositories" && k != "media" && k != "content" ==>
        Field(r.value.fields, k) == Field(input.fields, k)
    ensures input.JObj? && r.Done? ==>
      forall k :: k in r.value.fields ==> k in input.fields || k == "repositories"
  {
    if !Truthy(input) then Done(JObj(map[]))
    else if !input.JObj? then Done(input)
    else
      var withRepositories :- NormalizeRepositories(input.fields);
      var withMedia :- NormalizeMedia(withRepositories, known);
      var withContent :- NormalizeContent(withMedia, fileExtension);
      OnlyNormalizedKeysChange(input.fields, withRepositories, withMedia, withContent);
      Done(JObj(withContent))
  }

  /** Without owner and repo, a repositories object whose `length` is
      positive but which has no element 0 is left as it is, and an array
      entry in `content` then throws, as `repositories[0].name` does. */
  lemma ArrayEntryWithoutFirstRepositoryThrows(known: ExtensionCategories, fileExtension: FileExtensionOf)
    ensures NormalizeConfig(JObj(map["repositories" := JObj(map["length" := JNum(1)]), "content" := JArr([JArr([])])]),
                            known, fileExtension).Throws?
  {
    var cfg := map["repositories" := JObj(map["length" := JNum(1)]), "content" := JArr([JArr([])])];
    assert !HasOwnerAndRepo(cfg);
    assert NormalizeRepositories(cfg) == Done(cfg);
    assert NormalizeMedia(cfg, known) == Done(cfg);
    var repositories := Field(cfg, "repositories");
    assert HasLength(repositories);
    assert NormalizeContentItem(JArr([]), repositories, fileExtension).Throws?;
    assert NormalizeContent(cfg, fileExtension).Throws?;
  }

  /** The three steps together change only their own keys, and only the
      first may add one. */
  lemma OnlyNormalizedKeysChange(input: map<string, Json>, a: map<string, Json>, b: map<string, Json>, c: map<string, Json>)
    requires forall k :: k != "repositories" ==> Field(a, k) == Field(input, k)
    requires forall k :: k != "media" ==> Field(b, k) == Field(a, k)
    requires "media" in b <==> "media" in a
    requires forall k :: k != "content" ==> Field(c, k) == Field(b, k)
    requires "content" in c <==> "content" in b
    ensures forall k :: k != "repositories" && k != "media" && k != "content" ==> Field(c, k) == Field(input, k)
    ensures forall k :: k in c ==> k in input || k == "repositories"
  {
    forall k | k in c
      ensures k in input || k == "repositories"
    {
      assert k in b by {
        if k != "content" {
          assert Field(c, k) == Field(b, k);
        }
      }
      assert k in a by {
        if k != "media" {
          assert Field(b, k) == Field(a, k);
        }
      }
      if k != "repositories" {
        assert Field(a, k) == Field(input, k);
      }
    }
  }

  /** The later steps leave `repositories` as the first step made it. */
  lemma NormalizedRepositoriesSurvive(input: map<string, Json>, known: ExtensionCategories, fileExtension: FileExtensionOf)
    requires NormalizeConfig(JObj(input), known, fileExtension).Done?
    ensures NormalizeRepositories(input).Done?
    ensures Field(NormalizeConfig(JObj(input), known, fileExtension).value.fields, "repositories")
         == Field(NormalizeRepositories(input).value, "repositories")
  {
    var r1 := NormalizeRepositories(input);
    var r2 := NormalizeMedia(r1.value, known);
    var r3 := NormalizeContent(r2.value, fileExtension);
    assert Field(r3.value, "repositories") == Field(r2.value, "repositories");
  }

  /** An entry counts as the main repository when its path, stripped of one
      leading and one trailing slash, is "" or "/" (paths "", "/", "//" and
      "///"). */
  predicate BecomesMainEntry(r: Json) {
    r.JObj? && "path" in r.fields && r.fields["path"].JStr?
    && (StripEdgeSlashes(r.fields["path"].s) == "" || StripEdgeSlashes(r.fields["path"].s) == "/")
  }

  lemma NormalizeRepositoryMain(r: Json)
    requires NormalizeRepository(r).Done?
    ensures IsMainEntry(NormalizeRepository(r).value) <==> BecomesMainEntry(r)
  {
  }

  /** Each repository path other than "/" loses one leading and one
      trailing slash; nothing else about the entry changes. */
  lemma RepositoryPathNormalized(r: Json)
    requires NormalizeRepository(r).Done?
    ensures var out := NormalizeRepository(r).value;
      && (forall k :: k != "path" ==> Get(out, k) == Get(r, k))
      && (Get(r, "path").Some? && Get(r, "path").value.JStr? && Get(r, "path").value.s != "/"
          ==> Get(out, "path") == Some(JStr(StripEdgeSlashes(Get(r, "path").value.s))))
      && (!(Get(r, "path").Some? && Get(r, "path").value.JStr?) || Get(r, "path") == Some(JStr("/"))
          ==> Get(out, "path") == Get(r, "path"))
  {
  }

  /** The "Main Repository" entry is prepended exactly when no entry is (or
      becomes) a main entry and both `owner` and `repo` are set; the other
      entries follow in their original order. */
  lemma {:induction false} MainRepositoryPrepended(cfg: map<string, Json>)
    requires "repositories" in cfg && cfg["repositories"].JArr?
    requires NormalizeRepositories(cfg).Done?
    ensures var items := cfg["repositories"].items;
      var out := NormalizeRepositories(cfg).value["repositories"];
      var prepend := HasOwnerAndRepo(cfg) && forall i :: 0 <= i < |items| ==> !BecomesMainEntry(items[i]);
      && out.JArr?
      && |out.items| == |items| + (if prepend then 1 else 0)
      && (prepend ==> out.items[0] == MainRepository(cfg["owner"], cfg["repo"]))
      && forall i :: 0 <= i < |items| ==>
           out.items[i + (if prepend then 1 else 0)] == NormalizeRepository(items[i]).value
  {
    var items := cfg["repositories"].items;
    var mapped := MapOutcome(items, NormalizeRepository);
    assert mapped.Done?;
    forall i | 0 <= i < |items|
      ensures IsMainEntry(mapped.value[i]) <==> BecomesMainEntry(items[i])
    {
      NormalizeRepositoryMain(items[i]);
    }
    if HasMainRepository(mapped.value) {
      var j :| 0 <= j < |mapped.value| && IsMainEntry(mapped.value[j]);
      assert BecomesMainEntry(items[j]);
    }
  }

  /** With no repositories array, a configuration naming its owner and repo
      gets exactly one repository: the main one at "/". */
  lemma RepositoriesDefaulted(input: map<string, Json>, known: ExtensionCategories, fileExtension: FileExtensionOf)
    requires !("repositories" in input && input["repositories"].JArr?)
    requires HasOwnerAndRepo(input)
    requires NormalizeConfig(JObj(input), known, fileExtension).Done?
    ensures Field(NormalizeConfig(JObj(input), known, fileExtension).value.fields, "repositories")
         == Some(JArr([MainRepository(input["owner"], input["repo"])]))
  {
    NormalizedRepositoriesSurvive(input, known, fileExtension);
  }

  /** A string `media` value becomes one "Main Media" entry whose input is
      the path without edge slashes and whose output is that path under "/". */
  lemma MediaStringNormalized(input: map<string, Json>, s: string, known: ExtensionCategories, fileExtension: FileExtensionOf)
    requires "media" in input && input["media"] == JStr(s)
    requires NormalizeConfig(JObj(input), known, fileExtension).Done?
    ensures Field(NormalizeConfig(JObj(input), known, fileExtension).value.fields, "media")
         == Some(JArr([JObj(map["name" := JStr("Main Media"), "input" := JStr(StripEdgeSlashes(s)),
                                 "output" := JStr("/" + StripEdgeSlashes(s))])]))
  {
    var r1 := NormalizeRepositories(input);
    var r2 := NormalizeMedia(r1.value, known);
    var r3 := NormalizeContent(r2.value, fileExtension);
    assert Field(r1.value, "media") == Some(JStr(s));
    assert Field(r3.value, "media") == Field(r2.value, "media");
  }

  /** Whatever shape `media` had (string, array or legacy object), a
      normalised configuration holds it as an array. */
  lemma MediaAlwaysArray(input: map<string, Json>, known: ExtensionCategories, fileExtension: FileExtensionOf)
    requires "media" in input && !input["media"].JNull?
    requires NormalizeConfig(JObj(input), known, fileExtension).Done?
    ensures var out := Field(NormalizeConfig(JObj(input), known, fileExtension).value.fields, "media");
      out.Some? && out.value.JArr?
  {
    var r1 := NormalizeRepositories(input);
    var r2 := NormalizeMedia(r1.value, known);
    var r3 := NormalizeContent(r2.value, fileExtension);
    assert Field(r1.value, "media") == Field(input, "media");
    assert Field(r3.value, "media") == Field(r2.value, "media");
  }

  /** Per content entry: an existing format is kept; otherwise the inferred
      one is stored; a collection without a filename gets the dated default;
      an entry without a repository gets the first repository's name. */
  lemma ContentItemDefaults(f0: map<string, Json>, repositories: Option<Json>, fileExtension: FileExtensionOf)
    requires NormalizeContentItem(JObj(f0), repositories, fileExtension).Done?
    ensures var out := NormalizeContentItem(JObj(f0), repositories, fileExtension).value;
      && out.JObj?
      && (!Nullish(Field(f0, "format")) ==> Field(out.fields, "format") == Field(f0, "format"))
      && (Nullish(Field(f0, "format")) ==>
            Field(out.fields, "format") == Some(JStr(InferFormat(Field(f0, "fields"), Field(out.fields, "extension")))))
      && (!Nullish(Field(f0, "extension")) ==> Field(out.fields, "extension") == Field(f0, "extension"))
      && (Nullish(Field(f0, "filename")) && Field(f0, "type") == Some(JStr("collection")) ==>
            Field(out.fields, "filename") == Some(JStr(DefaultCollectionFilename)))
      && (!TruthyOpt(Field(f0, "repository")) && repositories.Some? && repositories.value.JArr?
          && |repositories.value.items| > 0 ==>
            Field(out.fields, "repository") == Get(repositories.value.items[0], "name"))
      && (TruthyOpt(Field(f0, "repository")) ==> Field(out.fields, "repository") == Field(f0, "repository"))
  {
    ItemFormat(f0, repositories, fileExtension);
    ItemExtension(f0, repositories, fileExtension);
    ItemFilename(f0, repositories, fileExtension);
    ItemRepository(f0, repositories, fileExtension);
  }

  lemma ItemFormat(f0: map<string, Json>, repositories: Option<Json>, fileExtension: FileExtensionOf)
    requires NormalizeContentItem(JObj(f0), repositories, fileExtension).Done?
    ensures var out := NormalizeContentItem(JObj(f0), repositories, fileExtension).value;
      && out.JObj?
      && (!Nullish(Field(f0, "format")) ==> Field(out.fields, "format") == Field(f0, "format"))
      && (Nullish(Field(f0, "format")) ==>
            Field(out.fields, "format") == Some(JStr(InferFormat(Field(f0, "fields"), Field(out.fields, "extension")))))
  {
    var f1 := ContentPath(f0).value;
    var f2 := ContentFilename(f1);
    var f3 := ContentExtension(f2, fileExtension);
    var f4 := ContentFormat(f3);
    var f5 := ContentRepository(f4, repositories).value;
    assert Field(f3, "fields") == Field(f0, "fields");
    assert Field(f3, "format") == Field(f0, "format");
    assert Field(f5, "extension") == Field(f4, "extension") == Field(f3, "extension");
  }

  lemma ItemExtension(f0: map<string, Json>, repositories: Option<Json>, fileExtension: FileExtensionOf)
    requires NormalizeContentItem(JObj(f0), repositories, fileExtension).Done?
    ensures var out := NormalizeContentItem(JObj(f0), repositories, fileExtension).value;
      !Nullish(Field(f0, "extension")) ==> Field(out.fields, "extension") == Field(f0, "extension")
  {
    var f1 := ContentPath(f0).value;
    var f2 := ContentFilename(f1);
    assert Field(f2, "extension") == Field(f0, "extension");
  }

  lemma ItemFilename(f0: map<string, Json>, repositories: Option<Json>, fileExtension: FileExtensionOf)
    requires NormalizeContentItem(JObj(f0), repositories, fileExtension).Done?
    ensures var out := NormalizeContentItem(JObj(f0), repositories, fileExtension).value;
      Nullish(Field(f0, "filename")) && Field(f0, "type") == Some(JStr("collection")) ==>
        Field(out.fields, "filename") == Some(JStr(DefaultCollectionFilename))
  {
    var f1 := ContentPath(f0).value;
    assert Field(f1, "filename") == Field(f0, "filename") && Field(f1, "type") == Field(f0, "type");
  }

  lemma ItemRepository(f0: map<string, Json>, repositories: Option<Json>, fileExtension: FileExtensionOf)
    requires NormalizeContentItem(JObj(f0), repositories, fileExtension).Done?
    ensures var out := NormalizeContentItem(JObj(f0), repositories, fileExtension).value;
      && (!TruthyOpt(Field(f0, "repository")) && repositories.Some? && repositories.value.JArr?
          && |repositories.value.items| > 0 ==>
            Field(out.fields, "repository") == Get(repositories.value.items[0], "name"))
      && (TruthyOpt(Field(f0, "repository")) ==> Field(out.fields, "repository") == Field(f0, "repository"))
  {
    var f1 := ContentPath(f0).value;
    var f2 := ContentFilename(f1);
    var f3 := ContentExtension(f2, fileExtension);
    var f4 := ContentFormat(f3);
    assert Field(f4, "repository") == Field(f0, "repository");
  }

  /** Every content entry of a normalised configuration that was an object
      carries a format the editor knows (the configuration did not give one)
      or keeps the one it gave. */
  lemma {:induction false} ContentFormatsKnown(input: map<string, Json>, known: ExtensionCategories, fileExtension: FileExtensionOf, i: nat)
    requires "content" in input && input["content"].JArr? && i < |input["content"].items|
    requires input["content"].items[i].JObj? && Nullish(Field(input["content"].items[i].fields, "format"))
    requires NormalizeConfig(JObj(input), known, fileExtension).Done?
    ensures var out := Field(NormalizeConfig(JObj(input), known, fileExtension).value.fields, "content");
      && out.Some? && out.value.JArr? && i < |out.value.items|
      && out.value.items[i].JObj?
      && Field(out.value.items[i].fields, "format").Some?
      && Field(out.value.items[i].fields, "format").value.JStr?
      && Field(out.value.items[i].fields, "format").value.s in Formats
  {
    var r1 := NormalizeRepositories(input);
    var r2 := NormalizeMedia(r1.value, known);
    var r3 := NormalizeContent(r2.value, fileExtension);
    assert Field(r2.value, "content") == Field(input, "content");
    var items := input["content"].items;
    var repositories := Field(r2.value, "repositories");
    var f := item => NormalizeContentItem(item, repositories, fileExtension);
    var mapped := MapOutcome(items, f);
    assert mapped.Done?;
    assert f(items[i]) == Done(mapped.value[i]);
    ContentItemDefaults(items[i].fields, repositories, fileExtension);
    var out := mapped.value[i];
    InferFormatClassifies(Field(items[i].fields, "fields"), Field(out.fields, "extension"));
  }
}
