/** The branch-edit context (contexts/branch-edit-context.tsx): whether the
    current branch may be edited, and the pending-changes flag that a
    successful pull request clears. */
module BranchEdit {
  import opened Common
  import WorkingBranch

  const ConfigurationNotFound := "Configuration not found"

  /** The effect's decision. The source treats every branch other than
      "main" and "master" as the user's own; it does not consult the
      repository's default branch. */
  predicate IsUserBranch(hasConfig: bool, hasUser: bool, branch: string) {
    hasConfig && hasUser && branch != "main" && branch != "master"
  }

  predicate CanEdit(isUserBranch: bool) {
    isUserBranch
  }

  predicate ReadOnly(isUserBranch: bool) {
    !isUserBranch
  }

  /** Read-only mode holds exactly when no configuration or no user is
      loaded, or the branch is "main" or "master"; editing holds exactly
      otherwise. */
  lemma ReadOnlyExactlyOnMainOrMaster(config: Option<string>, hasUser: bool)
    ensures var isUserBranch := config.Some? && IsUserBranch(true, hasUser, config.value);
      (ReadOnly(isUserBranch) <==> config.None? || !hasUser || config.value in {"main", "master"})
      && (CanEdit(isUserBranch) <==> !ReadOnly(isUserBranch))
  {
  }

  /** Every working branch is editable once configuration and user are
      loaded, since neither "main" nor "master" carries the prefix. */
  lemma WorkingBranchesAreUserBranches(branch: string)
    requires WorkingBranch.IsWorkingBranch(branch)
    ensures IsUserBranch(true, true, branch)
  {
    assert |branch| >= |WorkingBranch.WorkingPrefix| == 16;
  }

  /** A repository whose default branch has another name (say "develop")
      still has that default branch treated as the user's own. */
  lemma DefaultBranchNotConsulted()
    ensures IsUserBranch(true, true, "develop")
  {
  }

  datatype PullRequestBody = PullRequestBody(title: string, description: string, targetBranch: string)

  /** The body `createPullRequest` sends: an empty title becomes
      "Update content in <branch>", an empty description "", and the target
      is always "main". */
  function RequestBody(branch: string, title: Option<string>, description: Option<string>): (r: PullRequestBody)
    ensures r.targetBranch == "main"
    ensures r.title != []
    ensures title.Some? && title.value != [] ==> r.title == title.value
    ensures !(title.Some? && title.value != []) ==> r.title == "Update content in " + branch
    ensures r.description == if description.Some? then description.value else []
  {
    PullRequestBody(
      if title.Some? && title.value != [] then title.value else "Update content in " + branch,
      if description.Some? then description.value else [],
      "main")
  }

  /** The outcome of `createPullRequest` before any request: the body to
      send, or the error thrown when no configuration is loaded. */
  datatype Begin = Send(body: PullRequestBody) | Fail(message: string)

  /** What the response did: a response that is not ok, or whose status is
      not "success", makes `createPullRequest` throw. */
  datatype Response = Unreachable | Replied(ok: bool, success: bool)

  predicate Succeeded(response: Response) {
    response.Replied? && response.ok && response.success
  }

  class BranchEditState {
    var isUserBranch: bool
    var hasPendingChanges: bool

    constructor ()
      ensures !isUserBranch && !hasPendingChanges
    {
      isUserBranch := false;
      hasPendingChanges := false;
    }

    /** `checkBranchOwnership`, run whenever configuration or user change.
      `branch` is the configuration's branch when one is loaded. */
    method CheckBranchOwnership(config: Option<string>, hasUser: bool)
      modifies this
      ensures isUserBranch == (config.Some? && IsUserBranch(true, hasUser, config.value))
      ensures hasPendingChanges == old(hasPendingChanges)
    {
      if config.None? || !hasUser {
        isUserBranch := false;
      } else {
        var isDefaultBranch := config.value == "main" || config.value == "master";
        isUserBranch := !isDefaultBranch;
      }
    }

    method SetPendingChanges(hasPending: bool)
      modifies this
      ensures hasPendingChanges == hasPending && isUserBranch == old(isUserBranch)
    {
      hasPendingChanges := hasPending;
    }

    /** The first half of `createPullRequest`: without a configuration it
      throws "Configuration not found" before any request. */
    method BeginCreatePullRequest(config: Option<string>, title: Option<string>, description: Option<string>) returns (begin: Begin)
      ensures config.None? ==> begin == Fail(ConfigurationNotFound)
      ensures config.Some? ==> begin == Send(RequestBody(config.value, title, description))
    {
      if config.None? {
        begin := Fail(ConfigurationNotFound);
      } else {
        begin := Send(RequestBody(config.value, title, description));
      }
    }

    /** The second half: the flag is cleared only after a successful
      response; otherwise the error is rethrown and the flag stays. The
      result says whether the call returned normally. */
    method CompleteCreatePullRequest(response: Response) returns (returned: bool)
      modifies this
      ensures returned <==> Succeeded(response)
      ensures Succeeded(response) ==> !hasPendingChanges
      ensures !Succeeded(response) ==> hasPendingChanges == old(hasPendingChanges)
      ensures isUserBranch == old(isUserBranch)
    {
      if Succeeded(response) {
        hasPendingChanges := false;
        returned := true;
      } else {
        returned := false;
      }
    }
  }
}
