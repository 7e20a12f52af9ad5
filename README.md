# Pages CMS — branch workflow, configuration and collaborators, modelled in Dafny

Pages CMS is a Next.js content manager that edits files in GitHub
repositories. This project models the core of it:

- **configuration normalisation** (`normalizeConfig`): how `.pages.yml` is
  turned into the shape the editor uses. This covers repositories and the
  main-repository entry, media folders and extension categories, and
  content entries with their defaults and inferred formats;
- **branch handling**:
  - the branch-name rule used when creating branches;
  - the working-branch name (`content-changes/<user>/<slug>-<time>`);
  - branch filtering and status icons;
  - the dialogs that create branches and pull requests;
  - the edit-permission context;
  - the external-changes banner;
  - the paginated branch listing in `getRepo`;
- **navigation and the collection view**:
  - the repository menu;
  - column selection and the initial sort;
  - the list updates after delete, rename and folder creation;
- **collaborators**: the server actions that invite, remove and refresh
  collaborators, the GitHub helper classification of an invitation, and
  the collaborator list's client-side state.

Each source file becomes one Dafny module:
- pure code becomes functions and lemmas;
- React components and contexts whose handlers update state become classes;
- asynchronous handlers become a `Begin…` / `Complete…` pair of methods;
- network, database and helper results become parameters.

JSON values are a `Json` datatype. A JavaScript `TypeError` (a `null`
element, `.replace` on a non-string) is the `Throws` outcome.

## Model

| member | source | states |
|---|---|---|
| Config.StripEdgeSlashesRemovesOneEach | lib/config.ts:33-35 | At most one slash is removed at each end. The result can start or end with "/" only if the path had "//" there. A path without edge slashes is unchanged. |
| Config.StripEdgeSlashesRoundTrip | lib/config.ts:61-68 | Wrapping a path in slashes and stripping them gives the path back. |
| Config.StripEdgeSlashesKeepsClean | lib/config.ts:33-35 | A path with no edge slash is a fixed point. |
| Config.MapOutcome | lib/config.ts:31-37 | `map` succeeds exactly when every element succeeds. The result holds each element's value in order, and any throw comes from some element. |
| Config.NormalizeRepositories | lib/config.ts:29-57 | Only the `repositories` key changes, and an existing `repositories` key is kept. |
| Config.NormalizedRepositoriesSurvive | lib/config.ts:29-57 | The normalised configuration carries exactly the normalised repositories list. |
| Config.NormalizeRepositoryMain | lib/config.ts:31-41 | A normalised entry is the main entry (path "/" or "") exactly when its stripped path was "" or "/". |
| Config.RepositoryPathNormalized | lib/config.ts:31-37 | A string path other than "/" loses its edge slashes. Every other property, and any other path, is untouched. |
| Config.MainRepositoryPrepended | lib/config.ts:40-48 | When owner and repo are set and no entry is the main one, the main entry is prepended. Otherwise nothing is prepended. Either way every entry follows in order, normalised. |
| Config.RepositoriesDefaulted | lib/config.ts:49-57 | Without a repositories array, the list is the single main repository. |
| Config.ExpandCategoriesLoop | lib/config.ts:88-92 | The `forEach`/`concat` loop yields the categories' extensions in order. |
| Config.ExpandCategoriesAppend | lib/config.ts:88-92 | Expanding a concatenation concatenates the expansions. |
| Config.UnknownCategoryIgnored | lib/config.ts:89 | A category with no known extensions contributes nothing. |
| Config.ConvertCategoriesSpec | lib/config.ts:83-95 | `categories` is removed. Explicit `extensions` win. Otherwise `extensions` is the expansion of the categories. No other key changes. |
| Config.NormalizeMedia | lib/config.ts:59-133 | Only `media` changes. It is present after normalisation exactly when it was present before, and a non-null value becomes an array. |
| Config.MediaStringNormalized | lib/config.ts:61-68 | A string media path becomes one "Main Media" entry: the input is relative and the output is "/" plus the input. |
| Config.MediaAlwaysArray | lib/config.ts:59-133 | Any non-null media setting normalises to an array. |
| Config.InferFormatClassifies | lib/config.ts:155-181 | The inferred format is one of the seven known formats. Entries with fields get a structured format and entries without fields a file-level one. With fields, "json", "toml" and "yaml" are chosen exactly for their extensions (yaml or yml), so "yaml-frontmatter" covers every other extension. Without fields, "code" and "datagrid" are chosen exactly for theirs. |
| Config.ContentPath | lib/config.ts:139-141 | A non-null, non-string path throws. Otherwise only `path` changes, and a missing path changes nothing. |
| Config.ContentFilename | lib/config.ts:143-146 | A collection without a filename gets the default filename. Nothing else changes. |
| Config.ContentExtension | lib/config.ts:148-152 | A missing extension is taken from the path (file) or the filename (collection). An explicit one is kept. |
| Config.ContentFormat | lib/config.ts:154-181 | A missing format is inferred from the fields and the extension. An explicit one is kept. |
| Config.ContentRepository | lib/config.ts:183-186 | A missing repository defaults to the first repository's name. A set one, or an empty list of repositories, leaves the entry unchanged. |
| Config.ContentItemDefaults | lib/config.ts:136-190 | A normalised content entry keeps its explicit format, extension and repository. It gains the inferred format, the default collection filename and the first repository name where these were missing. |
| Config.ContentFormatsKnown | lib/config.ts:154-181 | Every content entry without a format ends with a known format. |
| Config.NormalizeContent | lib/config.ts:136-190 | Only `content` changes, and it is present exactly when it was before. |
| Config.ArrayEntryReadsFirstRepository | lib/config.ts:184-186 | An array entry keeps its value. It throws exactly when the repositories value has a positive length and reading its first element's name throws. |
| Config.NormalizeConfig | lib/config.ts:24-193 | A falsy input gives `{}`, and a truthy non-object is returned as is. An object stays an object. Only repositories, media and content change, and only `repositories` may be added. |
| Config.ArrayEntryWithoutFirstRepositoryThrows | lib/config.ts:24-193 | Without owner and repo, `{"repositories": {"length": 1}, "content": [[]]}` throws, because the array entry reads `repositories[0].name`. |
| BranchNames.ValidMeaning | components/repo/repo-branches.tsx:30-34 | A branch name is valid exactly when it meets all of these: it is non-empty and at most 255 characters; it does not start with "/"; it contains none of "/.", "//", "..", "@{", "\\"; it has no forbidden character; it does not end in "." or "/". |
| BranchNames.AgreeWithoutLineTerminators | components/repo/repo-branches.tsx:32 | For names without line terminators, the regex as written and the intended rule agree. |
| BranchNames.ValidIsStricter | components/repo/repo-branches.tsx:32 | Every name the intended rule accepts, the regex accepts. |
| BranchNames.LineTerminatorHidesForbiddenSequence | components/repo/repo-branches.tsx:32 | "a\n..b" passes the regex but breaks the rule. |
| BranchNames.AnyLineTerminatorHidesForbiddenSequence | components/repo/repo-branches.tsx:32 | For each line terminator, U+2028 included, the name "a", terminator, "..b" passes the regex but breaks the rule. |
| BranchNames.CreateGuardIsNonEmpty | components/repo/repo-branches.tsx:39 | The create guard passes exactly for a non-empty search, so the branch-name rule never rejects a name here. |
| WorkingBranch.ReplaceDisallowed | components/repo/working-branch-controls.tsx:55-60 | Each character outside a-z, 0-9 and "-" becomes "-". The length is kept. |
| WorkingBranch.Collapse | components/repo/working-branch-controls.tsx:55-60 | The result is no longer than the input, has no two hyphens in a row, and keeps the first and last characters and the slug alphabet. |
| WorkingBranch.CollapseSteps | components/repo/working-branch-controls.tsx:55-60 | The equations that fix the result: a character other than a hyphen is kept, a hyphen not followed by another is kept, and two hyphens in a row count as one. |
| WorkingBranch.CollapseKeepsNonHyphens | components/repo/working-branch-controls.tsx:55-60 | Collapsing removes only hyphens: the other characters are kept, in order. |
| WorkingBranch.CollapseKeepsClean | components/repo/working-branch-controls.tsx:55-60 | A name with no two hyphens in a row is unchanged. |
| WorkingBranch.SanitizeShape | components/repo/working-branch-controls.tsx:55-60 | The sanitised name is a slug with no double hyphen and no hyphen at either end. |
| WorkingBranch.SanitizeFixesShaped | components/repo/working-branch-controls.tsx:55-60 | A name already in that shape is unchanged. |
| WorkingBranch.SanitizeIdempotent | components/repo/working-branch-controls.tsx:55-60 | Sanitising twice is the same as sanitising once. |
| WorkingBranch.UntrimmedIgnoresLeadingSpace | components/repo/working-branch-controls.tsx:142 | The preview's chain without `trim` gives the same slug with leading whitespace removed. |
| WorkingBranch.UntrimmedIgnoresTrailingSpace | components/repo/working-branch-controls.tsx:142 | The same holds for trailing whitespace. |
| WorkingBranch.PreviewMatchesHandler | components/repo/working-branch-controls.tsx:142 | For a non-empty name, the preview shows the exact segment the handler will use. |
| WorkingBranch.FullBranchNameIsWorking | components/repo/working-branch-controls.tsx:62 | Every name the dialog builds is recognised as a working branch (line 117). |
| WorkingBranch.FullBranchNameValid | components/repo/working-branch-controls.tsx:62 | For a GitHub login, the built name passes the branch-name rule exactly when it is at most 255 characters long. |
| WorkingBranch.TargetBranchOptions | components/repo/working-branch-controls.tsx:193 | The target list is exactly the branches that are not working branches. |
| WorkingBranch.TargetBranchOptionsAppend | components/repo/working-branch-controls.tsx:193 | The filter keeps the order: the options of a concatenation are the options of each part, in turn. |
| WorkingBranch.AsWrittenIgnoresTargetAndDescription | components/repo/working-branch-controls.tsx:95-99 | With the body as written, the route opens the pull request against "main" with an empty description, whatever the dialog says. |
| WorkingBranch.RequestBodyHonoured | components/repo/working-branch-controls.tsx:95-99 | With the keys the pull-request route reads (`title`, `description`, `targetBranch`, lines 17-24 of its route.ts), the pull request gets the chosen target branch, title and description. |
| WorkingBranch.BranchDialog.constructor | components/repo/working-branch-controls.tsx:32-35 | The dialog starts closed, idle and with an empty name. |
| WorkingBranch.BranchDialog.BeginCreate | components/repo/working-branch-controls.tsx:44-62 | A blank name gives the "Branch name is required" toast and sends nothing. Otherwise the request names exactly the working-branch name and the dialog is busy. |
| WorkingBranch.BranchDialog.CompleteCreate | components/repo/working-branch-controls.tsx:72-86 | Success navigates to the new branch, closes the dialog and clears the name. Failure shows the error and keeps the dialog as it was. It is never busy afterwards. |
| WorkingBranch.PullRequestDialog.constructor | components/repo/working-branch-controls.tsx:36-38 | The target defaults to the repository's default branch, or is empty when there is none. |
| WorkingBranch.PullRequestDialog.BeginCreate | components/repo/working-branch-controls.tsx:89-99 | Corrected: it sends the title, description and target under the keys the route reads, and marks the dialog busy. As written, the keys are `body` and `baseBranch` (WorkingBranch.AsWrittenIgnoresTargetAndDescription). |
| WorkingBranch.PullRequestDialog.CompleteCreate | components/repo/working-branch-controls.tsx:100-113 | Success navigates to the target branch and failure shows the error. The dialog is never busy afterwards. |
| RepoBranches.FilterBranches | components/repo/repo-branches.tsx:22-28 | The filtered list holds exactly the branches that contain the search, case-insensitively. |
| RepoBranches.FilterBranchesAppend | components/repo/repo-branches.tsx:22-28 | Filtering commutes with concatenation, so order is kept. |
| RepoBranches.EmptySearchListsAll | components/repo/repo-branches.tsx:22-28 | An empty search lists every branch in order. |
| RepoBranches.FilteredBranches | components/repo/repo-branches.tsx:22-28 | An absent list stays absent, and a present list is filtered. |
| RepoBranches.GetBranchStatus | components/repo/repo-branches.tsx:77-79 | The result is none exactly when no status has that name. Otherwise it is the first status with that name. |
| RepoBranches.FirstMatchUnique | components/repo/repo-branches.tsx:77-79 | The first match is unique. |
| RepoBranches.RenderBranchStatus | components/repo/repo-branches.tsx:82-133 | An icon is shown exactly when the first matching status has one. The pull-request and merged icons match those statuses. |
| RepoBranches.MakeChangesEnabledMeaning | components/repo/repo-branches.tsx:144 | Corrected: the create button is enabled exactly for a name valid under the intended branch-name rule, not yet a branch, while nothing is being submitted. |
| RepoBranches.MakeChangesGuardsAgree | components/repo/repo-branches.tsx:144 | For names without line terminators, the corrected button test and the test as written disable the button for the same names. |
| RepoBranches.PastedSeparatorEnablesAsWritten | components/repo/repo-branches.tsx:144 | The name "a", U+2028, "..b" enables the button as written, and the corrected test keeps it disabled. |
| RepoBranches.AppendBranch | components/repo/repo-branches.tsx:57-61 | The new branch is appended after the earlier ones, which are kept in order. A missing list gives a one-element list. |
| RepoBranches.CreatedBranchListed | components/repo/repo-branches.tsx:57-61 | The created name is listed after the earlier names. |
| RepoBranches.BranchList.constructor | components/repo/repo-branches.tsx:18-20 | The list starts with an empty search and idle. |
| RepoBranches.BranchList.BeginCreate | components/repo/repo-branches.tsx:36-47 | A request is sent exactly when a configuration exists and the guard passes. It carries the search and the list at the click, and marks the list busy. |
| RepoBranches.BranchList.CompleteCreate | components/repo/repo-branches.tsx:48-69 | On success the list becomes the list at the click plus the new name. On failure it is unchanged. It is never busy afterwards. |
| MakeChanges.EnabledIffRequestAllowed | components/repo/repo-make-changes-button.tsx:38-47 | The create button is enabled exactly when the handler would send the request. Both sides use the corrected branch-name rule. |
| MakeChanges.RequestGuardsAgree | components/repo/repo-make-changes-button.tsx:38-47 | For names without line terminators, the corrected guard and the guard as written let the same names through. |
| MakeChanges.PastedSeparatorAllowedAsWritten | components/repo/repo-make-changes-button.tsx:38-47 | The name "a", U+2028, "..b" passes the guard as written and fails the corrected one. |
| MakeChanges.FailureToast | components/repo/repo-make-changes-button.tsx:83 | The failure toast is never empty. It is the error's message when there is one. |
| MakeChanges.MakeChangesDialog.constructor | components/repo/repo-make-changes-button.tsx:29-31 | The dialog starts closed, idle and with an empty name. |
| MakeChanges.MakeChangesDialog.BeginCreate | components/repo/repo-make-changes-button.tsx:44-47 | Corrected: a request is sent exactly when the guard allows it, with the intended branch-name rule in place of the regex as written. Nothing else changes except the busy flag. |
| MakeChanges.MakeChangesDialog.CompleteCreate | components/repo/repo-make-changes-button.tsx:70-86 | Success appends the branch, closes the dialog and navigates. Failure changes nothing but the toast. It is never busy afterwards. |
| BranchEdit.ReadOnlyExactlyOnMainOrMaster | contexts/branch-edit-context.tsx:40-102 | After the ownership check, read-only mode holds exactly when no configuration or no user is loaded, or the branch is "main" or "master". Editing holds exactly otherwise. |
| BranchEdit.WorkingBranchesAreUserBranches | contexts/branch-edit-context.tsx:51-52 | Every working branch is editable by a signed-in user. |
| BranchEdit.DefaultBranchNotConsulted | contexts/branch-edit-context.tsx:51-52 | A default branch other than main or master ("develop") counts as a user branch. |
| BranchEdit.RequestBody | contexts/branch-edit-context.tsx:72-76 | The body targets "main". The title is the given one or "Update content in …", and is never empty. The description defaults to "". |
| BranchEdit.BranchEditState.constructor | contexts/branch-edit-context.tsx:36-37 | The context starts as not a user branch and with no pending changes. |
| BranchEdit.BranchEditState.CheckBranchOwnership | contexts/branch-edit-context.tsx:40-60 | The flag is the ownership rule applied to the configured branch. Pending changes are untouched. |
| BranchEdit.BranchEditState.SetPendingChanges | contexts/branch-edit-context.tsx:111 | It sets only the pending-changes flag. |
| BranchEdit.BranchEditState.BeginCreatePullRequest | contexts/branch-edit-context.tsx:63-76 | Without a configuration it fails with "Configuration not found". Otherwise it sends the body. |
| BranchEdit.BranchEditState.CompleteCreatePullRequest | contexts/branch-edit-context.tsx:77-97 | It reports success exactly on an OK reply, which clears the pending changes. A failure keeps them. |
| SyncChanges.SyncFailureToast | components/repo/repo-sync-changes.tsx:105 | The sync failure toast is never empty. |
| SyncChanges.ChangesBanner.constructor | components/repo/repo-sync-changes.tsx:29-33 | The banner starts hidden and idle, with no commit and no check time. |
| SyncChanges.ChangesBanner.ApplyReply | components/repo/repo-sync-changes.tsx:50-54 | A reply sets the changes flag and, when present, the last commit. |
| SyncChanges.ChangesBanner.BeginCheck | components/repo/repo-sync-changes.tsx:39-49 | A check starts exactly when the captured flag is clear and a configuration exists. Once it starts, neither Dismiss, Check Again nor Sync is enabled, whatever edits are pending. |
| SyncChanges.ChangesBanner.CompleteCheck | components/repo/repo-sync-changes.tsx:50-63 | An OK, successful reply is applied. The check time is always set and the banner is no longer checking. The buttons stay locked exactly when a sync is running. |
| SyncChanges.ChangesBanner.BeginCheckAgain | components/repo/repo-sync-changes.tsx:141-146 | "Check Again" marks the banner checking and stamps the time. No button is enabled until the check completes. |
| SyncChanges.ChangesBanner.CompleteCheckAgain | components/repo/repo-sync-changes.tsx:147-155 | A successful reply is applied even when the response was not OK. The banner is no longer checking. The buttons stay locked exactly when a sync is running. |
| SyncChanges.ChangesBanner.Dismiss | components/repo/repo-sync-changes.tsx:133-134 | Dismiss hides the banner and touches nothing else. |
| SyncChanges.ChangesBanner.BeginSync | components/repo/repo-sync-changes.tsx:80-90 | A sync starts exactly when a configuration exists. Once it starts, no button is enabled, whatever edits are pending. |
| SyncChanges.ChangesBanner.CompleteSync | components/repo/repo-sync-changes.tsx:91-108 | An OK, successful sync hides the banner and refreshes. Anything else shows the toast. The banner is never syncing afterwards. The buttons stay locked exactly when a check is running. |
| PrButton.InitialTitle | components/repo/repo-pr-button.tsx:32 | The title is "Update content in " followed by the branch, or by nothing. |
| PrButton.InitialTitleSubmittable | components/repo/repo-pr-button.tsx:102 | The initial title never disables the button. |
| PrButton.PrDialog.constructor | components/repo/repo-pr-button.tsx:30-33 | The dialog starts closed and idle, with the initial title and an empty description. |
| PrButton.PrDialog.BeginCreate | components/repo/repo-pr-button.tsx:40-45 | It sends the current title and description and marks the dialog busy. |
| PrButton.PrDialog.CompleteCreate | components/repo/repo-pr-button.tsx:46-56 | Success closes the dialog and navigates to the default branch. Failure shows "Failed to create pull request". |
| RepoNav.ContentItem | components/repo/repo-nav.tsx:52-60 | A null entry throws. Otherwise the item carries the entry's name and label and a content icon (the collection icon exactly for collections), and links to `/owner/repo/branch/type/name`, with the branch and the name encoded. |
| RepoNav.ContentItems | components/repo/repo-nav.tsx:52-60 | The list succeeds exactly when no entry is null. It keeps the entries' order, and each item has its entry's name, label, icon and link. |
| RepoNav.Items | components/repo/repo-nav.tsx:49-95 | Without a configuration or a configuration object, the menu has no items. |
| RepoNav.ContentList | components/repo/repo-nav.tsx:52-60 | A missing content list gives no items. A non-array one throws. |
| RepoNav.ItemsOrdered | components/repo/repo-nav.tsx:89-94 | Content comes first, then media, then settings, then collaborators. |
| RepoNav.MediaListedIff | components/repo/repo-nav.tsx:62-69 | Media is listed exactly when the `media` value itself has a truthy `input` and a truthy `output`. |
| RepoNav.NormalizedMediaNeverListed | components/repo/repo-nav.tsx:62-69 | When the configuration the menu reads is the result of normalisation and has a non-null media setting, the media item is never listed, because that setting is always an array. |
| RepoNav.SettingsListedIff | components/repo/repo-nav.tsx:71-78 | Settings is listed exactly when `settings` is not `false`. |
| RepoNav.CollaboratorsListedIff | components/repo/repo-nav.tsx:80-87 | Collaborators is listed exactly for a non-empty configuration and a GitHub user. |
| RepoNav.SettingsKeepsMenu | components/repo/repo-nav.tsx:97 | Without content but with settings, the menu is not empty. |
| RepoNav.IsActiveMeaning | components/repo/repo-nav.tsx:126 | An item is active exactly when the path is its link or lies below it. |
| RepoNav.DropdownInsideMenu | components/repo/repo-nav.tsx:101 | The branch dropdown only appears in a rendered menu with a configuration. |
| CollectionView.CheckSchema | components/collection/collection-view.tsx:56-60 | The view is ready exactly for a configuration whose schema is a collection. Without a configuration it fails with "Configuration not found.". A falsy schema fails with "Schema not found for" the name, and any other schema fails with the name and "is not a collection.". |
| CollectionView.ListedColumns | components/collection/collection-view.tsx:65-70 | Listed paths become columns in order. Each kept path yields a column and object fields are dropped. |
| CollectionView.ListedColumnsAppend | components/collection/collection-view.tsx:65-70 | Column selection commutes with concatenation. |
| CollectionView.CollectListedColumns | components/collection/collection-view.tsx:65-70 | The loop builds exactly the listed columns. |
| CollectionView.AllFieldColumns | components/collection/collection-view.tsx:72-74 | The columns are produced exactly when no field is null, and no column is an object field. |
| CollectionView.AllFieldColumnsMeaning | components/collection/collection-view.tsx:72-74 | Every column comes from a field and its path is the field's name. Every field that is not an object field has a column. |
| CollectionView.AllFieldColumnsCons | components/collection/collection-view.tsx:72-74 | The first field's column, if it has one, comes before the rest's columns. A null first field throws. |
| CollectionView.AllFieldColumnsAppend | components/collection/collection-view.tsx:72-74 | The columns keep the field order: the columns of a concatenation are each part's columns, one after the other. |
| CollectionView.ViewColumns | components/collection/collection-view.tsx:62-98 | No column is an object field. |
| CollectionView.DefaultColumns | components/collection/collection-view.tsx:76-94 | Without fields, the columns are the name column, then the date column for dated filenames. |
| CollectionView.AllFieldsWithoutViewList | components/collection/collection-view.tsx:72-74 | With a `fields` array and no non-empty view list, the columns are the non-object fields, with path equal to name. |
| CollectionView.ListedViewColumns | components/collection/collection-view.tsx:65-70 | A non-empty `view.fields` selects the listed columns. |
| CollectionView.PrimaryField | components/collection/collection-view.tsx:100 | The primary field is the configured one, or "name". |
| CollectionView.InitialState | components/collection/collection-view.tsx:221-243 | Pages hold 25 rows. The order is descending exactly when sorting by date or when the view asks for "desc". |
| CollectionView.ExplicitSortWins | components/collection/collection-view.tsx:225-227 | A configured default sort is used. |
| CollectionView.DatedCollectionsNewestFirst | components/collection/collection-view.tsx:233-237 | A dated collection with no configured sort is sorted by date, newest first, 25 to a page. |
| CollectionView.DateColumnSortsNewestFirst | components/collection/collection-view.tsx:221-243 | With no configured sort, any date column makes the table sort by date, descending, 25 to a page. |
| CollectionView.PrimaryFieldFallback | components/collection/collection-view.tsx:225-237 | With no configured sort and no date column, the table sorts by the primary field. |
| CollectionView.Delete | components/collection/collection-view.tsx:102-104 | Exactly the entries at the deleted path are removed. |
| CollectionView.DeleteCounts | components/collection/collection-view.tsx:102-104 | Every other entry keeps its multiplicity. |
| CollectionView.DeleteAppend | components/collection/collection-view.tsx:102-104 | Deletion keeps order, because it commutes with concatenation. |
| CollectionView.DeletePaths | components/collection/collection-view.tsx:102-104 | The paths left are the old paths minus the deleted one. |
| CollectionView.RenameEntries | components/collection/collection-view.tsx:111-113 | The renamed entry gets the new path and name. All other entries are untouched and in place. |
| CollectionView.RenamedPaths | components/collection/collection-view.tsx:111-113 | The old path is replaced by the new one in the set of paths. |
| CollectionView.Rename | components/collection/collection-view.tsx:107-118 | A rename within the folder renames and re-sorts. A move out of the folder removes the entry. |
| CollectionView.RenameMovesPath | components/collection/collection-view.tsx:107-118 | After a rename the old path is gone. The new path is listed within the folder, and otherwise the entry has left the list. |
| CollectionView.ParentEntry | components/collection/collection-view.tsx:121-128 | The added entry is a directory at the parent path, with size 0 and no URL. |
| CollectionView.FolderCreateAddsParent | components/collection/collection-view.tsx:120-134 | Creating a folder adds exactly one entry, the parent directory. |
| CollectionView.OfKind | components/collection/collection-view.tsx:245-247 | The entries kept are exactly those of the kind. |
| CollectionView.OfKindCounts | components/collection/collection-view.tsx:245-247 | Filtering by kind keeps multiplicities. |
| CollectionView.FilesAndFoldersPartition | components/collection/collection-view.tsx:245-247 | Files and folders are disjoint. When every entry is a file or a directory, together they are the whole list. |
| CollectionView.EditGateMenus | components/collection/collection-view.tsx:192-210 | Options show exactly when editing is enabled. An editor sees either the options or the disabled options, and a reader sees neither. |
| RepoLib.LastRequested | lib/repo.ts:21-31 | Listing never stops before the page it starts at. |
| RepoLib.ListBranches | lib/repo.ts:21-31 | The loop returns the paged listing. Every page before the last requested one was full, and the last one was short or an error. |
| RepoLib.CollectFrom | lib/repo.ts:21-31 | The listing is the pages' names concatenated up to the first short page. |
| RepoLib.StopsAtShortPage | lib/repo.ts:27-29 | Pages after a short page are never requested. |
| RepoLib.ErrorEndsListing | lib/repo.ts:26 | An error on a page ends the listing with that error. |
| RepoLib.CatchError | lib/repo.ts:48-53 | 404 and 403 mean "no repository". Any other error is re-raised with its status. |
| RepoLib.GetRepo | lib/repo.ts:7-54 | No session redirects to sign-in, and a missing token raises "Token not found". A found repository has at least one branch, listed in page order. |
| RepoLib.NoBranchesNoRepo | lib/repo.ts:35-37 | A repository without branches is reported as absent. |
| RepoLib.LoadRepo | lib/repo.ts:7-54 | The imperative loader computes the same outcome. |
| CollaboratorUtils.OrElse | lib/utils/collaborator.ts:41-44 | An error's message is used when there is one, and the default otherwise. |
| CollaboratorUtils.CollaboratorTable.constructor | lib/actions/collaborator.ts:8 | The table holds the given rows. |
| CollaboratorUtils.CollaboratorTable.SetStatus | lib/actions/collaborator.ts:158-162 | Only the status of rows with that id changes. |
| CollaboratorUtils.WithStatus | lib/actions/collaborator.ts:158-162 | The length is kept. Rows with that id get the status and the other rows are untouched. |
| CollaboratorUtils.WithStatusOnlyTouchesId | lib/actions/collaborator.ts:158-162 | The status update touches exactly the rows with that id. |
| CollaboratorUtils.FindByInvitation | lib/utils/collaborator.ts:84-86 | The result is none exactly when no row has the invitation. A result has it. |
| CollaboratorUtils.PermissionOf | lib/utils/collaborator.ts:20 | The permission defaults to push. |
| CollaboratorUtils.Invite | lib/utils/collaborator.ts:15-45 | It sends the invite with the permission. An OK reply gives the code and id, and a failure throws its message or the default. |
| CollaboratorUtils.CancelInvitation | lib/utils/collaborator.ts:142-170 | It succeeds exactly on an OK reply. An error carries a non-empty message. |
| CollaboratorUtils.RemoveCollaborator | lib/utils/collaborator.ts:195-223 | It succeeds exactly on an OK reply. An error carries a non-empty message. |
| CollaboratorUtils.ClassifyInvitation | lib/utils/collaborator.ts:55-132 | A pending invitation writes nothing. A write happens exactly for accepted or declined, to the row found by invitation, with that status. |
| CollaboratorUtils.ClassifyOutcomes | lib/utils/collaborator.ts:65-130 | Each of the five outcomes (pending, unknown, accepted, declined, error) holds exactly on its own inputs. |
| CollaboratorUtils.ErrorCarriesLookupMessage | lib/utils/collaborator.ts:127-130 | An error only follows a failed lookup. It carries the lookup's message, or the default. |
| CollaboratorUtils.CheckInvitationStatus | lib/utils/collaborator.ts:55-132 | The method returns the classified status and writes exactly the classified update to the table. |
| CollaboratorActions.Validated | lib/actions/collaborator.ts:25-32 | A field validates exactly when its trimmed value is non-empty. The trimmed value is the field. |
| CollaboratorActions.Validate | lib/actions/collaborator.ts:25-32 | Owner, repo and username are each validated. |
| CollaboratorActions.FirstFailure | lib/actions/collaborator.ts:22-64 | The result is none exactly when all checks pass. Otherwise it is the message of the first failing check. |
| CollaboratorActions.FirstFailureAt | lib/actions/collaborator.ts:22-64 | The failure at the first failing index is the result. |
| CollaboratorActions.AddGuard | lib/actions/collaborator.ts:22-64 | Corrected: the add guard lets the request through exactly when the add is allowed. |
| CollaboratorActions.GuardIsFirstFailure | lib/actions/collaborator.ts:22-64 | The nested guards equal the first failure among the eight ordered checks. |
| CollaboratorActions.SendInvite | lib/actions/collaborator.ts:67-86 | It invites with push. It inserts a row exactly on an OK reply, and a failure returns the error. |
| CollaboratorActions.AddCollaborator | lib/actions/collaborator.ts:18-91 | Corrected: the invite is sent exactly when the add is allowed, and a row is inserted exactly when the invite is also accepted. The response is an error exactly when nothing is inserted. |
| CollaboratorActions.AddFollowsChecks | lib/actions/collaborator.ts:18-91 | A failing check returns its message, sends nothing and inserts nothing. |
| CollaboratorActions.SecondInviteRejected | lib/actions/collaborator.ts:57-64 | Inviting the same user to the same repository again fails with "already invited", whatever GitHub replies. |
| CollaboratorActions.UserCheckIgnoresToken | lib/actions/collaborator.ts:47-48 | With the username looked up, the token's value does not change the outcome. An unknown login sends nothing. |
| CollaboratorActions.ExistingUserNotFoundAsWritten | lib/actions/collaborator.ts:47 | As written, the existing user "octocat" is reported as not found. |
| CollaboratorActions.HandleAddCollaborator | lib/actions/collaborator.ts:70-81 | Corrected: the table gains exactly the inserted row, and the response is the action's. |
| CollaboratorActions.FindById | lib/actions/collaborator.ts:104-105 | The result is none exactly when no row has the id. |
| CollaboratorActions.RemoteCalls | lib/actions/collaborator.ts:111-118 | There is at most one call: a cancel for a pending invitation, a removal for an accepted one. |
| CollaboratorActions.RemoteCallFollowsStatus | lib/actions/collaborator.ts:111-118 | Never both a cancel and a removal. |
| CollaboratorActions.WithoutRow | lib/actions/collaborator.ts:121-126 | It deletes exactly the rows with the id in that repository. |
| CollaboratorActions.NothingDeletedMeansNoMatch | lib/actions/collaborator.ts:121-128 | The length is unchanged exactly when no row matched. |
| CollaboratorActions.DisplayName | lib/actions/collaborator.ts:130-131 | The display name is never empty. It is the login when there is one. |
| CollaboratorActions.RemoveCollaboratorAction | lib/actions/collaborator.ts:93-136 | The rows change only with a success message. Remote calls happen only for a found row. |
| CollaboratorActions.RemoveDeletesScoped | lib/actions/collaborator.ts:121-128 | Success deletes the scoped rows. The result is an error exactly when nothing matched. |
| CollaboratorActions.HandleRemoveCollaborator | lib/actions/collaborator.ts:93-136 | The table becomes the action's rows, with its response and remote calls. |
| CollaboratorActions.StatusGuard | lib/actions/collaborator.ts:139-152 | Passing the guards means the row exists and has an invitation. |
| CollaboratorActions.StatusWriteRule | lib/actions/collaborator.ts:155-162 | Only accepted or declined writes, and only to the collaborator's rows. Every other field is kept. |
| CollaboratorActions.CheckInvitationStatusAction | lib/actions/collaborator.ts:139-169 | A failed guard returns its error and leaves the table. Otherwise the table is updated by the status rule. |
| CollaboratorsView.IsUsernameInList | components/collaborators.tsx:49-54 | It holds exactly when some row is that user, ignoring case. |
| CollaboratorsView.UsernameGuardIgnoresCase | components/collaborators.tsx:49-54 | Lower-casing the typed name does not change the check. |
| CollaboratorsView.LocalPart | components/collaborators.tsx:183-188 | The local part is the prefix before the first "@". |
| CollaboratorsView.FirstTwo | components/collaborators.tsx:183-188 | It keeps the first two characters, or fewer. |
| CollaboratorsView.Initials | components/collaborators.tsx:183-188 | The initials have at most two characters: the login's first two, else the email local part's. |
| CollaboratorsView.EmptyLocalPartGivesNoInitials | components/collaborators.tsx:183-188 | An email starting with "@" gives empty initials. |
| CollaboratorsView.ShownName | components/collaborators.tsx:193 | There is no name exactly when there is neither a login nor an email. The login is preferred. |
| CollaboratorsView.WithoutId | components/collaborators.tsx:104 | Exactly that id leaves the in-flight list. |
| CollaboratorsView.WithoutRowId | components/collaborators.tsx:98 | Exactly the rows with the id are removed. |
| CollaboratorsView.AfterAddResult | components/collaborators.tsx:133-142 | A success appends the returned rows after the existing ones. Anything else changes nothing. |
| CollaboratorsView.InvitedUserBlocksReinvite | components/collaborators.tsx:133-142 | An invited user is then found by the name guard, in any case. |
| CollaboratorsView.RemoveStarted | components/collaborators.tsx:90 | It marks the id in flight and captures the arrays. |
| CollaboratorsView.RemoveFinished | components/collaborators.tsx:95-104 | As written, from the captured arrays: success filters the captured list, and the id leaves flight. |
| CollaboratorsView.RemoveFinishedLatest | components/collaborators.tsx:95-104 | With the current arrays, success removes the id's rows. Only that id leaves flight. |
| CollaboratorsView.RemoveCycle | components/collaborators.tsx:89-106 | A single removal removes exactly the id's rows on success and restores the in-flight list. |
| CollaboratorsView.OverlappingRemovalsAsWritten | components/collaborators.tsx:98-104 | As written, two overlapping removals bring the first row back and leave its id in flight. |
| CollaboratorsView.OverlappingRemovalsLatest | components/collaborators.tsx:98-104 | Corrected, both rows go and nothing stays in flight. |
| CollaboratorsView.RefreshStarted | components/collaborators.tsx:109 | It marks the id refreshing and captures the arrays. |
| CollaboratorsView.RefreshFinished | components/collaborators.tsx:114-129 | As written, from the captured arrays: a returned status updates the captured list, and the id stops refreshing. |
| CollaboratorsView.RefreshFinishedLatest | components/collaborators.tsx:114-129 | With the current arrays, a returned status updates the id's rows. Only that id stops refreshing. |
| CollaboratorsView.RefreshCycle | components/collaborators.tsx:108-131 | A single refresh applies the status to exactly the id's rows and restores the refreshing list. |
| CollaboratorsView.OverlappingRefreshesAsWritten | components/collaborators.tsx:118-129 | As written, two overlapping refreshes lose the first row's new status and leave its id refreshing. |
| CollaboratorsView.OverlappingRefreshesLatest | components/collaborators.tsx:118-129 | Corrected, both rows get their status and nothing stays refreshing. |
| CollaboratorsView.CollaboratorList.constructor | components/collaborators.tsx:40-44 | The list starts empty, with nothing in flight. |
| CollaboratorsView.CollaboratorList.OnAddResult | components/collaborators.tsx:133-142 | The state follows the add-result rule. |
| CollaboratorsView.CollaboratorList.BeginRemove | components/collaborators.tsx:90 | The id goes in flight. |
| CollaboratorsView.CollaboratorList.CompleteRemove | components/collaborators.tsx:95-104 | Corrected: the state follows the removal step over the current arrays. As written, the arrays captured at the click are filtered (CollaboratorsView.RemoveFinished). |
| CollaboratorsView.CollaboratorList.BeginRefresh | components/collaborators.tsx:109 | The id starts refreshing. |
| CollaboratorsView.CollaboratorList.CompleteRefresh | components/collaborators.tsx:114-129 | Corrected: the state follows the refresh step over the current arrays. As written, the arrays captured at the click are mapped (CollaboratorsView.RefreshFinished). |

## Left out

- Reading files, YAML parsing, `parseConfig` and `validateConfig` with its Zod schemas are not modelled. The model starts from the parsed JSON value.
- Helpers whose code is not part of this model are parameters: `getFileExtension`, `extensionCategories`, `sortFiles`, `getParentPath`, `getFileName`, `normalizePath`, `getFieldByPath`, `getPrimaryField`, `isContentEditable` and `encodeURIComponent`.
- Config.HasLength counts `x?.length > 0` as true only for a non-empty array or string, or an object whose `length` is a positive number. JavaScript also converts a string, boolean or array `length` to a number (`{length: "1"}`, `{length: true}` and `{length: [1]}` all pass). The model treats such values as having no length, so it picks a file-level format for `fields: {length: "1"}` and skips the repository default for `repositories: {length: "1"}`, where the source throws. CollectionView.HasViewList has the same limit.
- Json.JNum holds integers only. JavaScript numbers are doubles, so fractional values (a `length` of 0.5 read by CollectionView.HasViewList, numeric configuration values), NaN and its falsiness, and the infinities are not represented.
- Lower-casing is ASCII only, and lengths count characters rather than UTF-16 code units. Key order in JSON objects is not modelled.
- Deep copying in `normalizeConfig` is not modelled, because the model is pure and never shares state.
- Toasts, `console` output and router navigation are returned as values rather than performed.
- Network, GitHub API, session and database calls are parameters (replies, outcomes, the set of known GitHub logins). Database errors inside the insert are not modelled.
- Timers: the sync banner's periodic check (`setInterval`) is left out. Only one check is modelled.
- The collaborators page's initial fetch effect (components/collaborators.tsx:60-87) is not modelled, because it only loads rows.
- How branch statuses are computed (the branches/status route) is not modelled. Statuses are an input.
- `getRepo`'s redirect is an outcome value, not a thrown redirect.
- CollaboratorActions.AddGuard, CollaboratorActions.AddChecks, CollaboratorActions.AddAllowed, CollaboratorActions.AddCollaborator and CollaboratorActions.HandleAddCollaborator check the username against the GitHub logins (CollaboratorUtils.UserExists), the corrected check. The code looks up the token instead, so an existing user such as "octocat" is refused with "not found" and nothing is invited. That behaviour is stated by CollaboratorActions.UserCheckAsWritten and CollaboratorActions.ExistingUserNotFoundAsWritten, not by the action.
- CollaboratorActions.AddChecks: its contract gives only the number of checks. Their meaning is stated by CollaboratorActions.GuardIsFirstFailure.
- BranchEdit.CheckBranchOwnership follows the code: a branch belongs to the user when it is not "main" or "master". The repository's default branch is not consulted (BranchEdit.DefaultBranchNotConsulted).
- SyncChanges.ChangesBanner.BeginCheck takes the `isChecking` value captured by the interval closure as a parameter. The stale capture is modelled, not corrected.
- SyncChanges.ChangesBanner.CompleteCheckAgain: "Check Again" applies the reply without checking `res.ok`, as written.
- CollaboratorActions.RemoveCollaboratorAction: errors from the GitHub cancel or removal are ignored, as in the source. The database row is deleted either way.
- CollaboratorActions.CheckInvitationStatusAction returns the helper's status but not its error message, as the source does.
- CollaboratorsView.CollaboratorList.CompleteRemove and CollaboratorsView.CollaboratorList.CompleteRefresh apply the corrected steps (CollaboratorsView.RemoveFinishedLatest, CollaboratorsView.RefreshFinishedLatest), which update the current arrays. The code as written updates the arrays captured at the click (CollaboratorsView.RemoveFinished, CollaboratorsView.RefreshFinished), so overlapping operations behave as CollaboratorsView.OverlappingRemovalsAsWritten and CollaboratorsView.OverlappingRefreshesAsWritten show, not as the class does.
- CollaboratorsView.CollaboratorList.CompleteRemove treats an empty `error` string as success, as the source's truthiness test does.
- WorkingBranch.PullRequestDialog.BeginCreate sends the corrected body, `{title, description, targetBranch}`. The code sends `{title, body, baseBranch}`, which the route ignores. That behaviour is stated by WorkingBranch.AsWrittenIgnoresTargetAndDescription, not by the dialog.
- RepoBranches.MakeChangesEnabledMeaning and RepoBranches.MakeChangesDisabled use the intended branch-name rule (BranchNames.Valid). The button as written uses the regex, which also accepts names with a line terminator before a forbidden sequence. RepoBranches.MakeChangesGuardsAgree and RepoBranches.PastedSeparatorEnablesAsWritten relate the two.
- MakeChanges.MakeChangesDialog.BeginCreate, MakeChanges.RequestAllowed and MakeChanges.CreateDisabled use the intended branch-name rule in the same way. MakeChanges.RequestGuardsAgree and MakeChanges.PastedSeparatorAllowedAsWritten relate them to the regex as written.
- RepoNav.NormalizedMediaNeverListed assumes the menu reads a normalised configuration. The code that loads `config.object` is not part of this model, so whether it is normalised is not established here.
- CollectionView.ViewColumns does not model the branch for `viewFields == null`, which the code never reaches. Coercions of odd `view.fields` values are reduced to "present and non-empty array".
- CollectionView.Delete models the handlers with `data` always an array (it starts as `[]`), so the `prevData` undefined case is not modelled.

## Findings

| source | as written | input that shows it | evidently intended | confidence | as-written member | corrected member |
|---|---|---|---|---|---|---|
| components/repo/repo-branches.tsx:32 | The look-ahead that refuses forbidden sequences scans with `.*`, and `.` does not match line terminators, so a forbidden sequence after a newline goes unseen | "a\n..b", or a pasted "a", U+2028, "..b" | Reject "..", "//", "/.", "@{" and "\\" anywhere in the name | not executed | BranchNames.ValidAsWritten, BranchNames.LineTerminatorHidesForbiddenSequence, BranchNames.AnyLineTerminatorHidesForbiddenSequence, RepoBranches.PastedSeparatorEnablesAsWritten, MakeChanges.PastedSeparatorAllowedAsWritten | BranchNames.Valid, BranchNames.ValidMeaning |
| components/repo/working-branch-controls.tsx:95-99 | The dialog sends `body` and `baseBranch`, but the route reads `description` and `targetBranch` (app/api/[owner]/[repo]/[branch]/pull-request/route.ts:20-24) | target "develop", description "Fix typo" | The pull request targets the chosen branch and carries the description | not executed | WorkingBranch.RequestBodyAsWritten, WorkingBranch.AsWrittenIgnoresTargetAndDescription | WorkingBranch.RequestBody, WorkingBranch.RequestBodyHonoured |
| components/collaborators.tsx:98-104 | The remove handler filters the `collaborators` and `removing` arrays captured at the click | remove rows a and b before either finishes | Each completion updates the current arrays | not executed | CollaboratorsView.RemoveFinished, CollaboratorsView.OverlappingRemovalsAsWritten | CollaboratorsView.RemoveFinishedLatest, CollaboratorsView.OverlappingRemovalsLatest |
| components/collaborators.tsx:118-129 | The refresh handler maps the `collaborators` and `refreshing` arrays captured at the click | refresh rows a and b before either finishes | Each completion updates the current arrays | not executed | CollaboratorsView.RefreshFinished, CollaboratorsView.OverlappingRefreshesAsWritten | CollaboratorsView.RefreshFinishedLatest, CollaboratorsView.OverlappingRefreshesLatest |
| lib/actions/collaborator.ts:47 | `validateGitHubUsername(token, username)` passes the token as the only parameter (lib/utils/collaborator.ts:177), so the token is looked up as a login. The call is also a TypeScript arity error (TS2554), so this happens only in a build that ignores type errors | existing user "octocat", any token | Look up the username | not executed | CollaboratorActions.UserCheckAsWritten, CollaboratorActions.ExistingUserNotFoundAsWritten | CollaboratorUtils.UserExists, CollaboratorActions.UserCheckIgnoresToken |
