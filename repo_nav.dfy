/** The repository sidebar (components/repo/repo-nav.tsx): the list of
    navigation items derived from the configuration obj, the rule that
    marks a link active, and when the menu and its "Add an entry" dropdown
    appear. `encodeURIComponent` is a parameter; the icons are tags. */
module RepoNav {
  import opened Common
  import opened Json
  import WorkingBranch
  import Config

  /** The loaded configuration as the sidebar reads it. */
  datatype NavConfig = NavConfig(owner: string, repo: string, branch: string, configObject: Option<Json>)

  datatype Icon = CollectionIcon | EntryIcon | MediaIcon | SettingsIcon | CollaboratorsIcon

  /** A sidebar item; `key` and `caption` (the `label`) are whatever the
      configuration holds, `undefined` included. */
  datatype NavItem = NavItem(key: Option<Json>, icon: Icon, href: string, caption: Option<Json>)

  /** `encodeURIComponent`, not part of this model. */
  type Encode = string -> string

  /** A value interpolated into a template literal. */
  function Interpolate(o: Option<Json>): string {
    if o.Some? then ToJsString(o.value) else "undefined"
  }

  function BranchBase(c: NavConfig, encode: Encode): string {
    "/" + c.owner + "/" + c.repo + "/" + encode(c.branch)
  }

  predicate IsContentIcon(icon: Icon) {
    icon == CollectionIcon || icon == EntryIcon
  }

  /** `item.label || item.name`. */
  function LabelOf(item: Json): Option<Json> {
    var given := Get(item, "label");
    if TruthyOpt(given) then given else Get(item, "name")
  }

  /** `/${owner}/${repo}/${branch}/${item.type}/${name}`, with the branch and
      the name encoded. */
  function EntryHref(c: NavConfig, item: Json, encode: Encode): string {
    BranchBase(c, encode) + "/" + Interpolate(Get(item, "type")) + "/" + encode(Interpolate(Get(item, "name")))
  }

  /** One content entry as an item; reading a property of `null` throws. */
  function ContentItem(c: NavConfig, item: Json, encode: Encode): (r: Outcome<NavItem>)
    ensures r.Throws? <==> item.JNull?
    ensures r.Done? ==> r.value.key == Get(item, "name") && r.value.caption == LabelOf(item)
    ensures r.Done? ==> (r.value.icon == CollectionIcon <==> Get(item, "type") == Some(JStr("collection")))
    ensures r.Done? ==> IsContentIcon(r.value.icon)
    ensures r.Done? ==> r.value.href == EntryHref(c, item, encode)
    ensures r.Done? ==> StartsWith(r.value.href, BranchBase(c, encode) + "/")
  {
    if item.JNull? then Throws
    else
      var ty := Get(item, "type");
      var name := Get(item, "name");
      var base := BranchBase(c, encode) + "/";
      var href := base + Interpolate(ty) + "/" + encode(Interpolate(name));
      assert href[..|base|] == base;
      Done(NavItem(name, if ty == Some(JStr("collection")) then CollectionIcon else EntryIcon, href, LabelOf(item)))
  }

  /** `content.map(...)`: one item per entry, in configuration order. */
  function ContentItems(c: NavConfig, content: seq<Json>, encode: Encode): (r: Outcome<seq<NavItem>>)
    ensures r.Done? <==> forall i :: 0 <= i < |content| ==> !content[i].JNull?
    ensures r.Done? ==> |r.value| == |content|
    ensures r.Done? ==> forall i :: 0 <= i < |content| ==>
      r.value[i].key == Get(content[i], "name") && r.value[i].caption == LabelOf(content[i])
      && IsContentIcon(r.value[i].icon) && r.value[i].href == EntryHref(c, content[i], encode)
  {
    if content == [] then Done([])
    else
      var head :- ContentItem(c, content[0], encode);
      var tail :- ContentItems(c, content[1..], encode);
      assert forall i :: 1 <= i < |content| ==> content[i] == content[1..][i - 1];
      Done([head] + tail)
  }

  /** `configObject.content?.map(...) || []`: a missing or `null` list gives
      no items; anything else that is not an array has no `map` and throws. */
  function ContentList(c: NavConfig, obj: Json, encode: Encode): (r: Outcome<seq<NavItem>>)
    ensures Nullish(Get(obj, "content")) ==> r == Done([])
    ensures r.Done? ==> forall i :: 0 <= i < |r.value| ==> IsContentIcon(r.value[i].icon)
    ensures !Nullish(Get(obj, "content")) && !Get(obj, "content").value.JArr? ==> r.Throws?
  {
    var content := Get(obj, "content");
    if Nullish(content) then Done([])
    else if content.value.JArr? then ContentItems(c, content.value.items, encode)
    else Throws
  }

  function MediaItem(c: NavConfig, obj: Json, encode: Encode): Option<NavItem> {
    var media := Get(obj, "media");
    if media.Some? && TruthyOpt(Get(media.value, "input")) && TruthyOpt(Get(media.value, "output")) then
      Some(NavItem(Some(JStr("media")), MediaIcon, BranchBase(c, encode) + "/media", Some(JStr("Media"))))
    else None
  }

  function SettingsItem(c: NavConfig, obj: Json, encode: Encode): Option<NavItem> {
    if Get(obj, "settings") != Some(JBool(false)) then
      Some(NavItem(Some(JStr("settings")), SettingsIcon, BranchBase(c, encode) + "/settings", Some(JStr("Settings"))))
    else None
  }

  /** `Object.keys(value).length`. */
  function KeyCount(j: Json): nat {
    match j
    case JObj(fields) => |fields.Keys|
    case JArr(items) => |items|
    case JStr(s) => |s|
    case _ => 0
  }

  function CollaboratorsItem(c: NavConfig, obj: Json, githubId: Option<Json>, encode: Encode): Option<NavItem> {
    if KeyCount(obj) != 0 && TruthyOpt(githubId) then
      Some(NavItem(Some(JStr("collaborators")), CollaboratorsIcon, BranchBase(c, encode) + "/collaborators", Some(JStr("Collaborators"))))
    else None
  }

  /** `[...].filter(Boolean)` on an optional item. */
  function Present(o: Option<NavItem>): seq<NavItem> {
    if o.Some? then [o.value] else []
  }

  /** `items`: the content entries, then media, settings and collaborators,
      each of the last three only when present. `githubId` is `user?.githubId`. */
  function Items(config: Option<NavConfig>, githubId: Option<Json>, encode: Encode): (r: Outcome<seq<NavItem>>)
    ensures config.None? || !TruthyOpt(config.value.configObject) ==> r == Done([])
  {
    if config.None? || !TruthyOpt(config.value.configObject) then Done([])
    else
      var c := config.value;
      var obj := c.configObject.value;
      var content :- ContentList(c, obj, encode);
      Done(content + Present(MediaItem(c, obj, encode)) + Present(SettingsItem(c, obj, encode))
        + Present(CollaboratorsItem(c, obj, githubId, encode)))
  }

  predicate HasIcon(items: seq<NavItem>, icon: Icon) {
    exists i :: 0 <= i < |items| && items[i].icon == icon
  }

  /** Where an item may stand: content first, then the three fixed items. */
  function Rank(icon: Icon): nat {
    match icon
    case CollectionIcon => 0
    case EntryIcon => 0
    case MediaIcon => 1
    case SettingsIcon => 2
    case CollaboratorsIcon => 3
  }

  /** The parts of a successful `items`, for the lemmas below. */
  lemma ItemsParts(c: NavConfig, githubId: Option<Json>, encode: Encode)
    requires TruthyOpt(c.configObject) && Items(Some(c), githubId, encode).Done?
    ensures var obj := c.configObject.value;
      var content := ContentList(c, obj, encode);
      content.Done?
      && Items(Some(c), githubId, encode).value
        == content.value + Present(MediaItem(c, obj, encode)) + Present(SettingsItem(c, obj, encode))
          + Present(CollaboratorsItem(c, obj, githubId, encode))
  {
  }

  /** The items come in order: content entries first, in configuration
      order, then media, settings and collaborators, none twice. */
  lemma ItemsOrdered(config: Option<NavConfig>, githubId: Option<Json>, encode: Encode)
    requires Items(config, githubId, encode).Done?
    ensures var r := Items(config, githubId, encode).value;
      forall i, j :: 0 <= i < j < |r| ==>
        Rank(r[i].icon) <= Rank(r[j].icon) && (Rank(r[i].icon) > 0 ==> Rank(r[i].icon) < Rank(r[j].icon))
  {
    if config.Some? && TruthyOpt(config.value.configObject) {
      var c := config.value;
      var obj := c.configObject.value;
      ItemsParts(c, githubId, encode);
      RankedParts(ContentList(c, obj, encode).value, MediaItem(c, obj, encode), SettingsItem(c, obj, encode),
        CollaboratorsItem(c, obj, githubId, encode));
    }
  }

  /** Content items followed by the optional media, settings and
      collaborators items are ranked in order. */
  lemma RankedParts(content: seq<NavItem>, m: Option<NavItem>, s: Option<NavItem>, k: Option<NavItem>)
    requires forall i :: 0 <= i < |content| ==> IsContentIcon(content[i].icon)
    requires m.Some? ==> m.value.icon == MediaIcon
    requires s.Some? ==> s.value.icon == SettingsIcon
    requires k.Some? ==> k.value.icon == CollaboratorsIcon
    ensures var r := content + Present(m) + Present(s) + Present(k);
      forall i, j :: 0 <= i < j < |r| ==>
        Rank(r[i].icon) <= Rank(r[j].icon) && (Rank(r[i].icon) > 0 ==> Rank(r[i].icon) < Rank(r[j].icon))
  {
    var pm, ps, pk := Present(m), Present(s), Present(k);
    var fixed := pm + ps + pk;
    forall x | 0 <= x < |fixed|
      ensures Rank(fixed[x].icon) == if x < |pm| then 1 else if x < |pm| + |ps| then 2 else 3
    {
      if x < |pm| {
        assert fixed[x] == pm[x];
      } else if x < |pm| + |ps| {
        assert fixed[x] == ps[x - |pm|];
      } else {
        assert fixed[x] == pk[x - |pm| - |ps|];
      }
    }
    var r := content + pm + ps + pk;
    assert r == content + fixed;
    forall i, j | 0 <= i < j < |r|
      ensures Rank(r[i].icon) <= Rank(r[j].icon) && (Rank(r[i].icon) > 0 ==> Rank(r[i].icon) < Rank(r[j].icon))
    {
      if j < |content| {
        assert r[i] == content[i] && r[j] == content[j];
      } else if i < |content| {
        assert r[i] == content[i];
      } else {
        assert r[i] == fixed[i - |content|] && r[j] == fixed[j - |content|];
      }
    }
  }

  /** The media item is listed exactly when `media.input` and
      `media.output` are both truthy. */
  lemma MediaListedIff(c: NavConfig, githubId: Option<Json>, encode: Encode)
    requires TruthyOpt(c.configObject) && Items(Some(c), githubId, encode).Done?
    ensures var obj := c.configObject.value;
      var media := Get(obj, "media");
      (HasIcon(Items(Some(c), githubId, encode).value, MediaIcon)
       <==> media.Some? && TruthyOpt(Get(media.value, "input")) && TruthyOpt(Get(media.value, "output")))
  {
    ItemsParts(c, githubId, encode);
    var obj := c.configObject.value;
    var content := ContentList(c, obj, encode).value;
    var r := Items(Some(c), githubId, encode).value;
    var m := Present(MediaItem(c, obj, encode));
    if m != [] {
      assert r[|content|] == m[0];
    }
  }

  /** An array has no `input` property, so a configuration whose media
      setting has gone through `normalizeConfig` (which always makes it an
      array) never lists the media item. */
  lemma NormalizedMediaNeverListed(c: NavConfig, githubId: Option<Json>, encode: Encode,
                                   input: map<string, Json>, known: Config.ExtensionCategories,
                                   fileExtension: Config.FileExtensionOf)
    requires "media" in input && !input["media"].JNull?
    requires Config.NormalizeConfig(JObj(input), known, fileExtension).Done?
    requires c.configObject == Some(Config.NormalizeConfig(JObj(input), known, fileExtension).value)
    requires Items(Some(c), githubId, encode).Done?
    ensures !HasIcon(Items(Some(c), githubId, encode).value, MediaIcon)
  {
    Config.MediaAlwaysArray(input, known, fileExtension);
    MediaListedIff(c, githubId, encode);
  }

  /** The settings item is listed unless `settings` is literally `false`. */
  lemma SettingsListedIff(c: NavConfig, githubId: Option<Json>, encode: Encode)
    requires TruthyOpt(c.configObject) && Items(Some(c), githubId, encode).Done?
    ensures HasIcon(Items(Some(c), githubId, encode).value, SettingsIcon)
      <==> Get(c.configObject.value, "settings") != Some(JBool(false))
  {
    ItemsParts(c, githubId, encode);
    var obj := c.configObject.value;
    var content := ContentList(c, obj, encode).value;
    var r := Items(Some(c), githubId, encode).value;
    var m := Present(MediaItem(c, obj, encode));
    var s := Present(SettingsItem(c, obj, encode));
    if s != [] {
      assert r[|content| + |m|] == s[0];
    }
  }

  /** The collaborators item is listed exactly when the configuration object
      has a key and the signed-in user has a GitHub id. */
  lemma CollaboratorsListedIff(c: NavConfig, githubId: Option<Json>, encode: Encode)
    requires TruthyOpt(c.configObject) && Items(Some(c), githubId, encode).Done?
    ensures HasIcon(Items(Some(c), githubId, encode).value, CollaboratorsIcon)
      <==> KeyCount(c.configObject.value) != 0 && TruthyOpt(githubId)
  {
    ItemsParts(c, githubId, encode);
    var r := Items(Some(c), githubId, encode).value;
    var k := Present(CollaboratorsItem(c, c.configObject.value, githubId, encode));
    if k != [] {
      assert r[|r| - 1] == k[0];
    }
  }

  /** Without content entries, a configuration object still yields the
      settings item unless it is switched off, so the menu shows. */
  lemma SettingsKeepsMenu(c: NavConfig, githubId: Option<Json>, encode: Encode)
    requires TruthyOpt(c.configObject) && Nullish(Get(c.configObject.value, "content"))
    requires Get(c.configObject.value, "settings") != Some(JBool(false))
    ensures Items(Some(c), githubId, encode).Done? && |Items(Some(c), githubId, encode).value| > 0
  {
  }

  /** `pathname === href || pathname.startsWith(href + "/")`. */
  predicate IsActive(pathname: string, href: string) {
    pathname == href || StartsWith(pathname, href + "/")
  }

  /** A link is active on its own page and on the pages below it, and on
      no page that merely extends its last segment. */
  lemma IsActiveMeaning(pathname: string, href: string)
    ensures IsActive(pathname, href) <==> StartsWith(pathname, href) && (|pathname| == |href| || pathname[|href|] == '/')
  {
    if StartsWith(pathname, href + "/") {
      assert pathname[..|href|] == (href + "/")[..|href|];
    }
    if StartsWith(pathname, href) && |pathname| > |href| && pathname[|href|] == '/' {
      assert pathname[..|href| + 1] == pathname[..|href|] + [pathname[|href|]];
    }
  }

  /** The menu renders only with at least one item. */
  predicate Renders(items: seq<NavItem>) {
    |items| > 0
  }

  /** The dropdown needs a working branch and at least one item. */
  predicate ShowsDropdown(config: Option<NavConfig>, items: seq<NavItem>) {
    config.Some? && WorkingBranch.IsWorkingBranch(config.value.branch) && |items| > 0
  }

  /** The dropdown is part of the rendered menu, and never appears without
      a configuration. */
  lemma DropdownInsideMenu(config: Option<NavConfig>, githubId: Option<Json>, encode: Encode)
    requires Items(config, githubId, encode).Done?
    ensures var items := Items(config, githubId, encode).value;
      ShowsDropdown(config, items) ==> Renders(items) && config.Some? && TruthyOpt(config.value.configObject)
  {
  }
}
